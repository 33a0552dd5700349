/** Octets kept in a fixed buffer and read as a C text. */
module CText {
  import opened Bytes

  const NUL: byte := 0

  /** Where a byte first occurs, the length when it does not. */
  function IndexOf(s: seq<byte>, b: byte): (i: nat)
    ensures i <= |s| && (i < |s| ==> s[i] == b) && forall j :: 0 <= j < i ==> s[j] != b
  {
    if s == [] || s[0] == b then 0 else 1 + IndexOf(s[1..], b)
  }

  /** What a C reader sees of a buffer. */
  function CStr(s: seq<byte>): (r: seq<byte>)
    ensures |r| <= |s| && NUL !in r
  {
    s[..IndexOf(s, NUL)]
  }

  lemma IndexIs(s: seq<byte>, b: byte, i: nat)
    requires i <= |s| && (i < |s| ==> s[i] == b) && forall j :: 0 <= j < i ==> s[j] != b
    ensures IndexOf(s, b) == i
  {
  }

  lemma PlainText(s: seq<byte>)
    requires NUL !in s
    ensures CStr(s) == s
  {
    IndexIs(s, NUL, |s|);
  }
}
