/** Writing into a byte buffer at an offset. */
module Buffers {
  import opened Bytes

  /** sprintf of text at offset, terminator included. */
  method Sprintf(buf: array<Byte>, offset: nat, text: CString)
    requires offset + |text| < buf.Length
    modifies buf
    ensures buf[..offset] == old(buf[..offset])
    ensures buf[offset..offset + |text|] == text && buf[offset + |text|] == 0
  {
    Memcpy(buf, offset, text);
    buf[offset + |text|] := 0;
    assert buf[offset..offset + |text|] == text;
  }

  method Memcpy(buf: array<Byte>, offset: nat, src: seq<Byte>)
    requires offset + |src| <= buf.Length
    modifies buf
    ensures buf[..] == old(buf[..offset]) + src + old(buf[offset + |src|..])
  {
    for i := 0 to |src|
      invariant buf[..] == old(buf[..offset]) + src[..i] + old(buf[offset + i..])
    {
      buf[offset + i] := src[i];
    }
  }
}
