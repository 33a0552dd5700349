/** Big-endian writes into a caller's buffer. */
module Wire {
  import opened Bytes

  method Write16(out: array<byte>, pos: nat, v: nat)
    requires pos + 2 <= out.Length && v < 0x1_0000
    modifies out
    ensures out[..] == old(out[..pos]) + Be16(v) + old(out[pos + 2..])
  {
    out[pos] := v / 256;
    out[pos + 1] := v % 256;
  }

  method Write32(out: array<byte>, pos: nat, v: nat)
    requires pos + 4 <= out.Length && v < 0x1_0000_0000
    modifies out
    ensures out[..] == old(out[..pos]) + Be32(v) + old(out[pos + 4..])
  {
    Write16(out, pos, v / 0x1_0000);
    Write16(out, pos + 2, v % 0x1_0000);
  }

  method WriteBytes(out: array<byte>, pos: nat, b: seq<byte>)
    requires pos + |b| <= out.Length
    modifies out
    ensures out[..] == old(out[..pos]) + b + old(out[pos + |b|..])
  {
    var i: nat := 0;
    while i < |b|
      invariant i <= |b|
      invariant out[..pos] == old(out[..pos]) && out[pos..pos + i] == b[..i] && out[pos + i..] == old(out[pos + i..])
    {
      out[pos + i] := b[i];
      i := i + 1;
    }
    assert out[..] == out[..pos] + out[pos..pos + |b|] + out[pos + |b|..];
  }

  /** Writing right after what is there appends to it. */
  method Append(out: array<byte>, pos: nat, b: seq<byte>) returns (end: nat)
    requires pos + |b| <= out.Length
    modifies out
    ensures end == pos + |b| && out[..end] == old(out[..pos]) + b
  {
    WriteBytes(out, pos, b);
    end := pos + |b|;
  }

  method Append32(out: array<byte>, pos: nat, v: nat) returns (end: nat)
    requires pos + 4 <= out.Length && v < 0x1_0000_0000
    modifies out
    ensures end == pos + 4 && out[..end] == old(out[..pos]) + Be32(v)
  {
    Write32(out, pos, v);
    end := pos + 4;
  }
}
