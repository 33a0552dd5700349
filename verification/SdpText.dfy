/** Results, scanning, tokens and decimal numbers: the vocabulary of the session description parser. */
module SdpText {
  import opened Bytes
  import opened Results

  datatype Error = TooSmall | TooLarge | Malformed

  type Parsed<T> = Result<T, Error>

  predicate IsDigit(c: char) { '0' <= c <= '9' }

  predicate IsBlank(c: char) { c == ' ' || c == '\t' }

  predicate IsBreak(c: char) { c == '\r' || c == '\n' }

  /** What a scanning loop is looking for. */
  datatype Stop = AtBreak | AtBlank | AtNonBlank | AtSlash | AtColon | AtNonDigit | AtUriEnd | AtNul

  predicate Stops(k: Stop, c: char) {
    match k
    case AtBreak => IsBreak(c)
    case AtBlank => IsBlank(c)
    case AtNonBlank => !IsBlank(c)
    case AtSlash => c == '/'
    case AtColon => c == ':'
    case AtNonDigit => !IsDigit(c)
    case AtUriEnd => IsBlank(c) || IsBreak(c)
    case AtNul => c == '\0'
  }

  predicate Free(k: Stop, s: string) { forall i :: 0 <= i < |s| ==> !Stops(k, s[i]) }

  /** Where a loop that started at `pos` stops. */
  function Scan(k: Stop, s: string, pos: nat): (r: nat)
    requires pos <= |s|
    ensures pos <= r <= |s|
    ensures forall i :: pos <= i < r ==> !Stops(k, s[i])
    ensures r < |s| ==> Stops(k, s[r])
    decreases |s| - pos
  {
    if pos < |s| && !Stops(k, s[pos]) then Scan(k, s, pos + 1) else pos
  }

  /** A loop passes over `b` and stops at what follows it. */
  lemma ScanOver(k: Stop, a: string, b: string, c: string)
    requires Free(k, b) && (c == "" || Stops(k, c[0]))
    ensures Scan(k, a + b + c, |a|) == |a + b|
  {
    var s := a + b + c;
    assert forall i :: |a| <= i < |a + b| ==> s[i] == b[i - |a|];
    assert c != "" ==> s[|a + b|] == c[0];
  }

  /** The same with the pieces it finds. */
  lemma Piece(k: Stop, s: string, a: string, b: string, c: string)
    requires s == a + b + c && Free(k, b) && (c == "" || Stops(k, c[0]))
    ensures Scan(k, s, |a|) == |a| + |b| <= |s|
    ensures s[|a|..|a| + |b|] == b && s[|a| + |b|..] == c
  {
    ScanOver(k, a, b, c);
  }

  lemma Regroup(a: string, b: string, c: string)
    ensures a + b + c == a + (b + c)
  {
  }

  /** The text of a C buffer that received these bytes. */
  function CStr(s: string): string { s[..Scan(AtNul, s, 0)] }

  lemma CStrOfText(s: string)
    requires Free(AtNul, s)
    ensures CStr(s) == s
  {
    ScanOver(AtNul, "", s, "");
    assert "" + s + "" == s;
  }

  // ---------------------------------------------------------------- decimal numbers

  function Digit(c: char): nat
    requires IsDigit(c)
  {
    c as int - '0' as int
  }

  function Value(s: string): nat
    requires Free(AtNonDigit, s)
  {
    if s == "" then 0 else 10 * Value(s[..|s| - 1]) + Digit(s[|s| - 1])
  }

  function DigitChar(n: nat): (c: char)
    requires n < 10
    ensures IsDigit(c) && Digit(c) == n
  {
    ('0' as int + n) as char
  }

  /** The decimal numeral of `n`. */
  function Dec(n: nat): (s: string)
    ensures s != "" && Free(AtNonDigit, s)
  {
    if n < 10 then [DigitChar(n)] else Dec(n / 10) + [DigitChar(n % 10)]
  }

  lemma {:induction false} ValueOfDec(n: nat)
    ensures Value(Dec(n)) == n
  {
    if n < 10 {
      assert Dec(n)[..0] == "";
    } else {
      ValueOfDec(n / 10);
      assert Dec(n)[..|Dec(n)| - 1] == Dec(n / 10);
    }
  }

  lemma DecIsPlain(n: nat)
    ensures Free(AtBreak, Dec(n)) && Free(AtBlank, Dec(n)) && Free(AtSlash, Dec(n)) && Free(AtColon, Dec(n)) && Free(AtNul, Dec(n))
  {
    var s := Dec(n);
    forall i | 0 <= i < |s|
      ensures !Stops(AtBreak, s[i]) && !Stops(AtBlank, s[i]) && !Stops(AtSlash, s[i]) && !Stops(AtColon, s[i]) && !Stops(AtNul, s[i])
    {
      assert !Stops(AtNonDigit, s[i]);
    }
  }

  lemma {:induction false} ValueGrows(s: string, i: nat)
    requires Free(AtNonDigit, s) && i <= |s|
    ensures Value(s[..i]) <= Value(s)
    decreases |s|
  {
    if i == |s| {
      assert s[..i] == s;
    } else {
      ValueGrows(s[..|s| - 1], i);
      assert s[..|s| - 1][..i] == s[..i];
    }
  }

  /** The leading digits of a text as a 32-bit number; no digit or a larger number is an error. */
  function ParseU32(s: string): Parsed<nat> {
    var e := Scan(AtNonDigit, s, 0);
    var v := Value(s[..e]);
    if e == 0 || v >= U32 then Err(Malformed) else Ok(v)
  }

  lemma ParseOfDec(n: nat, rest: string)
    requires n < U32 && (rest == "" || !IsDigit(rest[0]))
    ensures ParseU32(Dec(n) + rest) == Ok(n)
  {
    ScanOver(AtNonDigit, "", Dec(n), rest);
    assert "" + Dec(n) + rest == Dec(n) + rest;
    assert (Dec(n) + rest)[..|Dec(n)|] == Dec(n);
    ValueOfDec(n);
  }

  // ---------------------------------------------------------------- tokens

  /** The next blank-delimited token from `pos`, and where it ends. */
  function NextToken(s: string, pos: nat): (r: Parsed<(string, nat)>)
    requires pos <= |s|
    ensures r.Ok? ==> pos < r.value.1 <= |s| && r.value.0 != "" && |r.value.0| <= r.value.1 - pos
    ensures r.Err? ==> r.error == Malformed
  {
    var start := Scan(AtNonBlank, s, pos);
    if start >= |s| then Err(Malformed)
    else
      var end := Scan(AtBlank, s, start);
      Ok((s[start..end], end))
  }

  /** A token in its place: after at most one space, before a blank or the end. */
  lemma TokenAt(s: string, a: string, sp: string, tok: string, c: string)
    requires s == a + sp + tok + c && (sp == "" || sp == " ") && tok != "" && Free(AtBlank, tok) && (c == "" || IsBlank(c[0]))
    ensures |a| <= |s| && NextToken(s, |a|) == Ok((tok, |a| + |sp| + |tok|))
  {
    Regroup(a + sp, tok, c);
    assert !Stops(AtBlank, tok[0]);
    assert (tok + c)[0] == tok[0];
    Piece(AtNonBlank, s, a, sp, tok + c);
    Piece(AtBlank, s, a + sp, tok, c);
    hide Scan, Free;
  }

  /** A value written after one space is what remains once blanks are skipped. */
  lemma RestAt(s: string, a: string, rest: string)
    requires s == a + " " + rest && (rest == "" || !IsBlank(rest[0]))
    ensures |a| + 1 <= |s| && Scan(AtNonBlank, s, |a|) == |a| + 1 && s[|a| + 1..] == rest
  {
    Piece(AtNonBlank, s, a, " ", rest);
  }
}
