/** Numbers as octets spell them, told apart from the writers and readers of fields. */
module Octets {
  import opened Bytes

  /** The number that octets spell, high first. */
  function Number(b: seq<byte>): nat { if b == [] then 0 else Number(b[..|b| - 1]) * 256 + b[|b| - 1] }

  lemma NumberOf2(n: nat)
    requires n < U16
    ensures Number(Be16(n)) == n
  {
    assert Be16(n)[..1] == [n / 256] && [n / 256][..0] == [];
    assert Number([n / 256]) == n / 256;
  }

  lemma NumberOfMore(a: seq<byte>, n: nat)
    requires n < U16
    ensures Number(a + Be16(n)) == Number(a) * U16 + n
  {
    assert (a + Be16(n))[..|a| + 1] == a + [n / 256] && (a + [n / 256])[..|a|] == a;
  }

  lemma NumberOf4(n: nat)
    requires n < U32
    ensures Number(Be32(n)) == n
  {
    NumberOf2(n / U16);
    NumberOfMore(Be16(n / U16), n % U16);
  }
}
