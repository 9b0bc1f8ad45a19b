/**
 * The 21-byte on-disk vertex record. The layout reserves bytes 0..4 for the symbol id,
 * but the code reads and writes it as a 2-byte value at 0..2 and never touches 2..4.
 * `Load`/`Unload` model the code as written; `LoadIntended`/`UnloadIntended` model the
 * 4-byte field the layout describes.
 */
module Vertices {
  import opened Fabric
  import opened ByteOrder
  import opened Buffers
  import Properties

  const VERTEX_SYMBOLID_OFFSET: nat := 0
  const VERTEX_VALUE_OFFSET: nat := 4
  const VERTEX_FIRSTOUTEDGEID_OFFSET: nat := 13
  const VERTEX_FIRSTINEDGEID_OFFSET: nat := 17
  const VERTEX_DISKSIZE: nat := 21

  datatype Vertex = Vertex(
    id: u32,
    symbolId: u32,
    value: Properties.Property,
    firstOutEdgeId: u32,
    firstInEdgeId: u32)

  /** `fdb_vertex_load`: id from the caller, symbol id as LE u16 from bytes 0..2, the rest from `source`. */
  function Load(id: u32, source: seq<byte>): (v: Vertex)
    requires |source| >= VERTEX_DISKSIZE
    ensures v.symbolId < 0x1_0000
  {
    Vertex(id,
      LeU16(source[VERTEX_SYMBOLID_OFFSET..]),
      Properties.Load(source[VERTEX_VALUE_OFFSET..]),
      LeU32(source[VERTEX_FIRSTOUTEDGEID_OFFSET..]),
      LeU32(source[VERTEX_FIRSTINEDGEID_OFFSET..]))
  }

  /** The bytes stored at 4..21: the value property and the two edge ids. */
  function EncodeTail(v: Vertex): (r: seq<byte>)
    ensures |r| == VERTEX_DISKSIZE - VERTEX_VALUE_OFFSET
    ensures r[..9] == Properties.Encode(v.value)
    ensures r[VERTEX_FIRSTOUTEDGEID_OFFSET - 4..VERTEX_FIRSTINEDGEID_OFFSET - 4] == U32Le(v.firstOutEdgeId)
    ensures r[VERTEX_FIRSTINEDGEID_OFFSET - 4..] == U32Le(v.firstInEdgeId)
  {
    Properties.Encode(v.value) + U32Le(v.firstOutEdgeId) + U32Le(v.firstInEdgeId)
  }

  /**
   * `fdb_vertex_unload` into `dest`: the symbol id truncated to 16 bits at 0..2, the
   * value and edge ids at 4..21; bytes 2..4 and everything past 21 are untouched.
   */
  function Unload(v: Vertex, dest: seq<byte>): (r: seq<byte>)
    requires |dest| >= VERTEX_DISKSIZE
    ensures |r| == |dest| && r[VERTEX_DISKSIZE..] == dest[VERTEX_DISKSIZE..]
    ensures r[..2] == U16Le(v.symbolId % 0x1_0000)
    ensures r[2..VERTEX_VALUE_OFFSET] == dest[2..VERTEX_VALUE_OFFSET]
    ensures r[VERTEX_VALUE_OFFSET..VERTEX_DISKSIZE] == EncodeTail(v)
  {
    var r := Splice(Splice(dest, VERTEX_SYMBOLID_OFFSET, U16Le(v.symbolId % 0x1_0000)), VERTEX_VALUE_OFFSET, EncodeTail(v));
    assert r[..2] == U16Le(v.symbolId % 0x1_0000);
    r
  }

  /** `fdb_vertex_unload` on the caller's buffer. */
  method UnloadTo(v: Vertex, dest: array<byte>)
    requires dest.Length >= VERTEX_DISKSIZE
    modifies dest
    ensures dest[..] == Unload(v, old(dest[..]))
  {
    Store(dest, VERTEX_SYMBOLID_OFFSET, U16Le(v.symbolId % 0x1_0000));
    Store(dest, VERTEX_FIRSTOUTEDGEID_OFFSET, U32Le(v.firstOutEdgeId));
    Store(dest, VERTEX_FIRSTINEDGEID_OFFSET, U32Le(v.firstInEdgeId));
    Store(dest, VERTEX_VALUE_OFFSET, Properties.Encode(v.value));
    assert dest[..] == Unload(v, old(dest[..])) by {
      var r := Unload(v, old(dest[..]));
      var tail := EncodeTail(v);
      forall i | 0 <= i < dest.Length ensures dest[i] == r[i] {
        if i < 2 { assert r[i] == r[..2][i]; }
        else if i < 4 { assert r[i] == r[2..4][i - 2]; }
        else if i < 21 {
          assert r[i] == tail[i - 4];
          if i < 13 { assert tail[i - 4] == tail[..9][i - 4]; }
          else if i < 17 { assert tail[i - 4] == tail[9..13][i - 13]; }
          else { assert tail[i - 4] == tail[13..][i - 17]; }
        } else { assert r[i] == r[21..][i - 21]; }
      }
    }
  }

  /** Loading an unloaded vertex recovers every stored field, but the symbol id only modulo 2^16. */
  lemma LoadUnload(v: Vertex, dest: seq<byte>)
    requires |dest| >= VERTEX_DISKSIZE
    ensures Load(v.id, Unload(v, dest)) == v.(symbolId := v.symbolId % 0x1_0000, value := v.value.(dataRef := Properties.Null))
  {
    var r := Unload(v, dest);
    var w := Load(v.id, r);
    ReadU16At(r, VERTEX_SYMBOLID_OFFSET, v.symbolId % 0x1_0000);
    LoadTail(v, r);
  }

  /** Reading bytes 4..21 back from a buffer that holds `EncodeTail(v)` there gives back v's value and edge ids. */
  lemma LoadTail(v: Vertex, r: seq<byte>)
    requires |r| >= VERTEX_DISKSIZE && r[VERTEX_VALUE_OFFSET..VERTEX_DISKSIZE] == EncodeTail(v)
    ensures Load(v.id, r).value == v.value.(dataRef := Properties.Null)
    ensures Load(v.id, r).firstOutEdgeId == v.firstOutEdgeId
    ensures Load(v.id, r).firstInEdgeId == v.firstInEdgeId
  {
    SliceOfSlice(r, 4, 21, 0, 9);
    SliceOfSlice(r, 4, 21, 9, 13);
    SliceOfSlice(r, 4, 21, 13, 17);
    ReadU32At(r, VERTEX_FIRSTOUTEDGEID_OFFSET, v.firstOutEdgeId);
    ReadU32At(r, VERTEX_FIRSTINEDGEID_OFFSET, v.firstInEdgeId);
    Properties.LoadUnload(v.value, r[VERTEX_VALUE_OFFSET..]);
    assert r[VERTEX_VALUE_OFFSET..][..9] == Properties.Encode(v.value);
  }

  /** Unloading a loaded vertex reproduces bytes 0..2 and 4..21 of the source; 2..4 keep the destination's bytes. */
  lemma UnloadLoad(id: u32, source: seq<byte>, dest: seq<byte>)
    requires |source| >= VERTEX_DISKSIZE && |dest| >= VERTEX_DISKSIZE
    ensures Unload(Load(id, source), dest)[..2] == source[..2]
    ensures Unload(Load(id, source), dest)[2..4] == dest[2..4]
    ensures Unload(Load(id, source), dest)[4..VERTEX_DISKSIZE] == source[4..VERTEX_DISKSIZE]
  {
    var v := Load(id, source);
    var r := Unload(v, dest);
    assert v.symbolId % 0x1_0000 == v.symbolId;
    U16BytesRoundTrip(source);
    assert r[..2] == source[..2];
    TailRoundTrip(id, source);
    assert r[4..VERTEX_DISKSIZE] == source[4..VERTEX_DISKSIZE];
  }

  /** The value and edge ids read from bytes 4..21 encode back to those bytes. */
  lemma TailRoundTrip(id: u32, source: seq<byte>)
    requires |source| >= VERTEX_DISKSIZE
    ensures EncodeTail(Load(id, source)) == source[VERTEX_VALUE_OFFSET..VERTEX_DISKSIZE]
  {
    var v := Load(id, source);
    var value, outId, inId := source[4..13], source[13..17], source[17..21];
    U32BytesRoundTrip(source[13..]);
    assert source[13..][..4] == outId;
    U32BytesRoundTrip(source[17..]);
    assert source[17..][..4] == inId;
    assert value == [source[4]] + source[5..13];
    assert source[4..21] == value + outId + inId;
  }

  /** The discrepancy: any symbol id of 2^16 or more does not survive an unload and a load. */
  lemma SymbolIdAbove16BitsIsLost(v: Vertex, dest: seq<byte>)
    requires |dest| >= VERTEX_DISKSIZE && v.symbolId >= 0x1_0000
    ensures Load(v.id, Unload(v, dest)).symbolId != v.symbolId
  {
    LoadUnload(v, dest);
  }

  // ---------------------------------------------------------------------------
  // The symbol id as the layout describes it: a u32 at bytes 0..4.

  function LoadIntended(id: u32, source: seq<byte>): (v: Vertex)
    requires |source| >= VERTEX_DISKSIZE
    ensures v.id == id && U32Le(v.symbolId) == source[VERTEX_SYMBOLID_OFFSET..VERTEX_VALUE_OFFSET]
  {
    U32BytesRoundTrip(source[VERTEX_SYMBOLID_OFFSET..]);
    Load(id, source).(symbolId := LeU32(source[VERTEX_SYMBOLID_OFFSET..]))
  }

  function EncodeIntended(v: Vertex): (r: seq<byte>)
    ensures |r| == VERTEX_DISKSIZE
    ensures r[VERTEX_SYMBOLID_OFFSET..VERTEX_VALUE_OFFSET] == U32Le(v.symbolId)
    ensures r[VERTEX_VALUE_OFFSET..] == EncodeTail(v)
  {
    U32Le(v.symbolId) + EncodeTail(v)
  }

  function UnloadIntended(v: Vertex, dest: seq<byte>): (r: seq<byte>)
    requires |dest| >= VERTEX_DISKSIZE
    ensures |r| == |dest| && r[VERTEX_DISKSIZE..] == dest[VERTEX_DISKSIZE..]
    ensures r[..VERTEX_DISKSIZE] == EncodeIntended(v)
  {
    Splice(dest, 0, EncodeIntended(v))
  }

  /** With the 4-byte field every stored field round-trips, the full symbol id included. */
  lemma IntendedLoadUnload(v: Vertex, dest: seq<byte>)
    requires |dest| >= VERTEX_DISKSIZE
    ensures LoadIntended(v.id, UnloadIntended(v, dest)) == v.(value := v.value.(dataRef := Properties.Null))
  {
    var r := UnloadIntended(v, dest);
    var tail := EncodeTail(v);
    assert r[..4] == U32Le(v.symbolId);
    ReadU32At(r, VERTEX_SYMBOLID_OFFSET, v.symbolId);
    assert r[4..13] == tail[..9];
    assert r[13..17] == tail[9..13];
    assert r[17..21] == tail[13..];
    ReadU32At(r, VERTEX_FIRSTOUTEDGEID_OFFSET, v.firstOutEdgeId);
    ReadU32At(r, VERTEX_FIRSTINEDGEID_OFFSET, v.firstInEdgeId);
    assert r[VERTEX_VALUE_OFFSET..][..9] == Properties.Encode(v.value);
    Properties.LoadUnload(v.value, r[VERTEX_VALUE_OFFSET..]);
  }

  lemma IntendedUnloadLoad(id: u32, source: seq<byte>, dest: seq<byte>)
    requires |source| >= VERTEX_DISKSIZE && |dest| >= VERTEX_DISKSIZE
    ensures UnloadIntended(LoadIntended(id, source), dest)[..VERTEX_DISKSIZE] == source[..VERTEX_DISKSIZE]
  {
    var v := LoadIntended(id, source);
    TailRoundTrip(id, source);
    assert EncodeTail(v) == EncodeTail(Load(id, source));
    assert source[..VERTEX_DISKSIZE] == source[..4] + source[4..VERTEX_DISKSIZE];
  }
}
