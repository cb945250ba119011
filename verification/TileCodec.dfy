/** One tile as one byte (src/tile_codec.cpp): bits 0-1 terrain, 2-3 side, 4
    resource, 5 base. The fields occupy disjoint bits, so `|` is addition. */
module TileCodec {
  import opened Common

  const EMPTY := 0
  const WATER := 1
  const OBSTACLE := 3

  datatype TileFlags = TileFlags(terrain: u8, side: u8, isResource: bool, isBase: bool)

  function Pack(tile: TileFlags): u8 {
    tile.terrain % 4
    + (tile.side % 4) * 4
    + (if tile.isResource then 16 else 0)
    + (if tile.isBase then 32 else 0)
  }

  function Unpack(packed: u8): TileFlags {
    TileFlags(packed % 4, (packed / 4) % 4, (packed / 16) % 2 != 0, (packed / 32) % 2 != 0)
  }

  /** Packing loses nothing exactly when terrain and side fit their two bits. */
  lemma UnpackPack(tile: TileFlags)
    ensures Unpack(Pack(tile)) == tile <==> tile.terrain < 4 && tile.side < 4
    ensures Pack(tile) < 64
  {
    var low := tile.terrain % 4 + (tile.side % 4) * 4;
    var r := if tile.isResource then 1 else 0;
    var b := if tile.isBase then 1 else 0;
    assert Pack(tile) == low + 16 * r + 32 * b;
    assert Pack(tile) / 16 == r + 2 * b;
    assert Pack(tile) / 4 == tile.side % 4 + 4 * (r + 2 * b);
  }

  /** Unpacking ignores the two reserved bits and nothing else. */
  lemma PackUnpack(packed: u8)
    ensures Pack(Unpack(packed)) == packed % 64
  {
    var t, s, r, b := packed % 4, (packed / 4) % 4, (packed / 16) % 2, (packed / 32) % 2;
    QuartersAndBits(packed);
    assert r == 0 || r == 1;
    assert b == 0 || b == 1;
  }

  lemma QuartersAndBits(packed: u8)
    ensures packed % 64 == packed % 4 + (packed / 4) % 4 * 4 + (packed / 16) % 2 * 16 + (packed / 32) % 2 * 32
  {
    var q := packed / 4;
    var h := q / 4;
    var e := h / 2;
    assert packed / 16 == h && packed / 32 == e;
    assert packed % 64 == packed % 4 + 4 * (q % 4) + 16 * (h % 2) + 32 * (e % 2) by {
      assert packed == packed % 4 + 4 * q && q == q % 4 + 4 * h && h == h % 2 + 2 * e && e == e % 2 + 2 * (e / 2);
    }
  }
}
