/** The 29-byte on-disk edge record. */
module Edges {
  import opened Fabric
  import opened ByteOrder
  import opened Buffers
  import Properties

  const EDGE_SYMBOLID_OFFSET: nat := 0
  const EDGE_VALUE_OFFSET: nat := 4
  const EDGE_FROMID_OFFSET: nat := 13
  const EDGE_TOID_OFFSET: nat := 17
  const EDGE_FROMNEXTEDGEID_OFFSET: nat := 21
  const EDGE_TONEXTEDGEID_OFFSET: nat := 25
  const EDGE_DISKSIZE: nat := 29

  datatype Edge = Edge(
    id: u32,
    symbolId: u32,
    value: Properties.Property,
    fromVertexId: u32,
    toVertexId: u32,
    fromNextEdgeId: u32,
    toNextEdgeId: u32)

  /** `fdb_edge_load`: the id comes from the caller, every other field from `source`. */
  function Load(id: u32, source: seq<byte>): (e: Edge)
    requires |source| >= EDGE_DISKSIZE
    ensures e.id == id && e.value.dataRef == Properties.Null
    ensures Properties.Encode(e.value) == source[EDGE_VALUE_OFFSET..EDGE_FROMID_OFFSET]
  {
    assert source[EDGE_VALUE_OFFSET..][..Properties.PROPERTY_DISKSIZE] == source[EDGE_VALUE_OFFSET..EDGE_FROMID_OFFSET];
    Edge(id,
      LeU32(source[EDGE_SYMBOLID_OFFSET..]),
      Properties.Load(source[EDGE_VALUE_OFFSET..]),
      LeU32(source[EDGE_FROMID_OFFSET..]),
      LeU32(source[EDGE_TOID_OFFSET..]),
      LeU32(source[EDGE_FROMNEXTEDGEID_OFFSET..]),
      LeU32(source[EDGE_TONEXTEDGEID_OFFSET..]))
  }

  /** The bytes `fdb_edge_unload` stores: each field at its offset, the regions tiling 0..29. */
  function Encode(e: Edge): (r: seq<byte>)
    ensures |r| == EDGE_DISKSIZE
    ensures r[EDGE_SYMBOLID_OFFSET..EDGE_VALUE_OFFSET] == U32Le(e.symbolId)
    ensures r[EDGE_VALUE_OFFSET..EDGE_FROMID_OFFSET] == Properties.Encode(e.value)
    ensures r[EDGE_FROMID_OFFSET..EDGE_TOID_OFFSET] == U32Le(e.fromVertexId)
    ensures r[EDGE_TOID_OFFSET..EDGE_FROMNEXTEDGEID_OFFSET] == U32Le(e.toVertexId)
    ensures r[EDGE_FROMNEXTEDGEID_OFFSET..EDGE_TONEXTEDGEID_OFFSET] == U32Le(e.fromNextEdgeId)
    ensures r[EDGE_TONEXTEDGEID_OFFSET..EDGE_DISKSIZE] == U32Le(e.toNextEdgeId)
  {
    U32Le(e.symbolId) + Properties.Encode(e.value) + U32Le(e.fromVertexId) + U32Le(e.toVertexId)
      + U32Le(e.fromNextEdgeId) + U32Le(e.toNextEdgeId)
  }

  /** `fdb_edge_unload` into `dest`: bytes 0..29 become the record, the rest is untouched. */
  function Unload(e: Edge, dest: seq<byte>): (r: seq<byte>)
    requires |dest| >= EDGE_DISKSIZE
    ensures |r| == |dest| && r[EDGE_DISKSIZE..] == dest[EDGE_DISKSIZE..]
    ensures r[..EDGE_DISKSIZE] == Encode(e)
  {
    Splice(dest, 0, Encode(e))
  }

  /** `fdb_edge_unload` on the caller's buffer: five u32 stores, then the property. */
  method UnloadTo(e: Edge, dest: array<byte>)
    requires dest.Length >= EDGE_DISKSIZE
    modifies dest
    ensures dest[..] == Unload(e, old(dest[..]))
  {
    Store(dest, EDGE_SYMBOLID_OFFSET, U32Le(e.symbolId));
    Store(dest, EDGE_FROMID_OFFSET, U32Le(e.fromVertexId));
    Store(dest, EDGE_TOID_OFFSET, U32Le(e.toVertexId));
    Store(dest, EDGE_FROMNEXTEDGEID_OFFSET, U32Le(e.fromNextEdgeId));
    Store(dest, EDGE_TONEXTEDGEID_OFFSET, U32Le(e.toNextEdgeId));
    Store(dest, EDGE_VALUE_OFFSET, Properties.Encode(e.value));
    assert dest[..] == Splice(old(dest[..]), 0, Encode(e)) by {
      var enc := Encode(e);
      forall i | 0 <= i < EDGE_DISKSIZE ensures dest[i] == enc[i] {
        if i < 4 { assert enc[i] == enc[0..4][i]; }
        else if i < 13 { assert enc[i] == enc[4..13][i - 4]; }
        else if i < 17 { assert enc[i] == enc[13..17][i - 13]; }
        else if i < 21 { assert enc[i] == enc[17..21][i - 17]; }
        else if i < 25 { assert enc[i] == enc[21..25][i - 21]; }
        else { assert enc[i] == enc[25..29][i - 25]; }
      }
    }
  }

  /** Decoding stored bytes gives back every stored field, with the caller's id and a cleared reference. */
  lemma LoadEncode(id: u32, e: Edge, rest: seq<byte>)
    ensures Load(id, Encode(e) + rest) == e.(id := id, value := e.value.(dataRef := Properties.Null))
  {
    var b := Encode(e) + rest;
    ReadU32At(b, EDGE_SYMBOLID_OFFSET, e.symbolId);
    ReadU32At(b, EDGE_FROMID_OFFSET, e.fromVertexId);
    ReadU32At(b, EDGE_TOID_OFFSET, e.toVertexId);
    ReadU32At(b, EDGE_FROMNEXTEDGEID_OFFSET, e.fromNextEdgeId);
    ReadU32At(b, EDGE_TONEXTEDGEID_OFFSET, e.toNextEdgeId);
    assert b[EDGE_VALUE_OFFSET..][..9] == Properties.Encode(e.value);
    Properties.LoadUnload(e.value, b[EDGE_VALUE_OFFSET..]);
  }

  lemma LoadUnload(e: Edge, dest: seq<byte>)
    requires |dest| >= EDGE_DISKSIZE
    ensures Load(e.id, Unload(e, dest)) == e.(value := e.value.(dataRef := Properties.Null))
  {
    var r := Unload(e, dest);
    assert r == Encode(e) + r[EDGE_DISKSIZE..];
    LoadEncode(e.id, e, r[EDGE_DISKSIZE..]);
  }

  /** Re-encoding a loaded edge reproduces the 29 bytes it was loaded from. */
  lemma EncodeLoad(id: u32, source: seq<byte>)
    requires |source| >= EDGE_DISKSIZE
    ensures Encode(Load(id, source)) == source[..EDGE_DISKSIZE]
  {
    var e := Load(id, source);
    U32BytesRoundTrip(source[0..]);
    U32BytesRoundTrip(source[13..]);
    U32BytesRoundTrip(source[17..]);
    U32BytesRoundTrip(source[21..]);
    U32BytesRoundTrip(source[25..]);
    assert Properties.Encode(e.value) == source[4..13];
  }

  lemma UnloadLoad(id: u32, source: seq<byte>, dest: seq<byte>)
    requires |source| >= EDGE_DISKSIZE && |dest| >= EDGE_DISKSIZE
    ensures Unload(Load(id, source), dest)[..EDGE_DISKSIZE] == source[..EDGE_DISKSIZE]
  {
    EncodeLoad(id, source);
  }
}
