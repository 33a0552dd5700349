// Facts about duplicate-free sequences that several units share: the intrusive
// doubly linked lists of the registry are modelled as sequences of addresses.
module Lists {
  predicate NoDup<T(==,!new)>(l: seq<T>) {
    forall i, j :: 0 <= i < j < |l| ==> l[i] != l[j]
  }

  /** `l` without the elements of `dead`, order kept: the effect of unlinking nodes. */
  function Minus<T(==,!new)>(l: seq<T>, dead: set<T>): (r: seq<T>)
    ensures forall x :: x in r <==> x in l && x !in dead
  {
    if l == [] then []
    else if l[0] in dead then Minus(l[1..], dead)
    else [l[0]] + Minus(l[1..], dead)
  }

  lemma {:induction false} MinusNoDup<T(!new)>(l: seq<T>, dead: set<T>)
    requires NoDup(l)
    ensures NoDup(Minus(l, dead))
  {
    if l != [] {
      MinusNoDup(l[1..], dead);
      if l[0] !in dead {
        var r := Minus(l[1..], dead);
        forall i, j | 0 <= i < j < |r| + 1 ensures ([l[0]] + r)[i] != ([l[0]] + r)[j] {
          if i == 0 { assert r[j - 1] in r; assert r[j - 1] in l[1..]; }
        }
      }
    }
  }

  /** Unlinking in two rounds is unlinking the union. */
  lemma {:induction false} MinusMinus<T(!new)>(l: seq<T>, d: set<T>, e: set<T>)
    ensures Minus(Minus(l, d), e) == Minus(l, d + e)
  {
    if l != [] {
      MinusMinus(l[1..], d, e);
      if l[0] !in d {
        assert ([l[0]] + Minus(l[1..], d))[1..] == Minus(l[1..], d);
      }
    }
  }

  lemma {:induction false} MinusNothing<T(!new)>(l: seq<T>, d: set<T>)
    requires forall x :: x in l ==> x !in d
    ensures Minus(l, d) == l
  {
    if l != [] {
      assert l[0] in l;
      forall x | x in l[1..] ensures x !in d { assert x in l; }
      MinusNothing(l[1..], d);
    }
  }

  /** Only the membership of `dead` among the elements of `l` matters. */
  lemma {:induction false} MinusAgree<T(!new)>(l: seq<T>, d: set<T>, e: set<T>)
    requires forall x :: x in l ==> (x in d <==> x in e)
    ensures Minus(l, d) == Minus(l, e)
  {
    if l != [] {
      assert l[0] in l;
      forall x | x in l[1..] ensures x in d <==> x in e { assert x in l; }
      MinusAgree(l[1..], d, e);
    }
  }
}
