/** Little-endian integers (src/buffer.cpp). */
module Wire {
  import opened Common

  function U16(v: u16): (b: seq<u8>)
    ensures |b| == 2
  {
    [v % 0x100, v / 0x100]
  }

  function U32(v: u32): (b: seq<u8>)
    ensures |b| == 4
  {
    [v % 0x100, (v / 0x100) % 0x100, (v / 0x1_0000) % 0x100, v / 0x100_0000]
  }

  function GetU16(b: seq<u8>): u16
    requires |b| >= 2
  {
    b[0] as int + 0x100 * (b[1] as int)
  }

  function GetU32(b: seq<u8>): u32
    requires |b| >= 4
  {
    b[0] as int + 0x100 * (b[1] as int) + 0x1_0000 * (b[2] as int) + 0x100_0000 * (b[3] as int)
  }

  lemma GetPutU16(v: u16, rest: seq<u8>)
    ensures GetU16(U16(v) + rest) == v && (U16(v) + rest)[2..] == rest
  {
  }

  lemma GetPutU32(v: u32, rest: seq<u8>)
    ensures GetU32(U32(v) + rest) == v && (U32(v) + rest)[4..] == rest
  {
    var q := v / 0x100;
    var r := q / 0x100;
    assert v / 0x1_0000 == r && v / 0x100_0000 == r / 0x100;
  }

  /** WriteBuffer: a growing byte vector that can be patched. */
  class WriteBuffer {
    var bytes: seq<u8>

    constructor ()
      ensures bytes == []
    {
      bytes := [];
    }

    method WriteU8(v: u8)
      modifies this
      ensures bytes == old(bytes) + [v]
    {
      bytes := bytes + [v];
    }

    method WriteU16(v: u16)
      modifies this
      ensures bytes == old(bytes) + U16(v)
    {
      bytes := bytes + [v % 0x100];
      bytes := bytes + [(v / 0x100) % 0x100];
    }

    method WriteU32(v: u32)
      modifies this
      ensures bytes == old(bytes) + U32(v)
    {
      bytes := bytes + [v % 0x100];
      bytes := bytes + [(v / 0x100) % 0x100];
      bytes := bytes + [(v / 0x1_0000) % 0x100];
      bytes := bytes + [(v / 0x100_0000) % 0x100];
    }

    method WriteBytes(b: seq<u8>)
      modifies this
      ensures bytes == old(bytes) + b
    {
      bytes := bytes + b;
    }

    /** Overwrites four bytes in the middle. */
    method PatchU32(offset: nat, v: u32)
      requires offset + 4 <= |bytes|
      modifies this
      ensures bytes == old(bytes)[..offset] + U32(v) + old(bytes)[offset + 4..]
    {
      bytes := bytes[offset := v % 0x100];
      bytes := bytes[offset + 1 := (v / 0x100) % 0x100];
      bytes := bytes[offset + 2 := (v / 0x1_0000) % 0x100];
      bytes := bytes[offset + 3 := (v / 0x100_0000) % 0x100];
    }
  }
}
