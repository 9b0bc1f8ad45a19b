/** The 12-byte on-disk symbol record: a reference count and the id of the symbol's string. */
module Symbols {
  import opened Fabric
  import opened ByteOrder
  import opened Buffers
  import Properties

  const SYMBOL_REFCOUNT_OFFSET: nat := 0
  const SYMBOL_STRINGID_OFFSET: nat := 4
  const SYMBOL_DISKSIZE: nat := 12

  /** `stringRef` points at the in-memory string; the codec only clears it. */
  datatype Symbol = Symbol(id: u32, refCount: u32, stringId: u64, stringRef: Properties.Ref)

  /** `fdb_symbol_load`: id from the caller, refCount LE u32 at 0..4, stringId LE u64 at 4..12, no string reference. */
  function Load(id: u32, source: seq<byte>): (s: Symbol)
    requires |source| >= SYMBOL_DISKSIZE
    ensures s.stringRef == Properties.Null
  {
    Symbol(id,
      LeU32(source[SYMBOL_REFCOUNT_OFFSET..]),
      LeU64(source[SYMBOL_STRINGID_OFFSET..]),
      Properties.Null)
  }

  function Encode(s: Symbol): (r: seq<byte>)
    ensures |r| == SYMBOL_DISKSIZE
    ensures r[SYMBOL_REFCOUNT_OFFSET..SYMBOL_STRINGID_OFFSET] == U32Le(s.refCount)
    ensures r[SYMBOL_STRINGID_OFFSET..] == U64Le(s.stringId)
  {
    U32Le(s.refCount) + U64Le(s.stringId)
  }

  /** `fdb_symbol_unload` into `dest`: writes bytes 0..12 and nothing else. */
  function Unload(s: Symbol, dest: seq<byte>): (r: seq<byte>)
    requires |dest| >= SYMBOL_DISKSIZE
    ensures |r| == |dest| && r[SYMBOL_DISKSIZE..] == dest[SYMBOL_DISKSIZE..]
    ensures r[..SYMBOL_DISKSIZE] == Encode(s)
  {
    Splice(dest, 0, Encode(s))
  }

  /** `fdb_symbol_unload` on the caller's buffer: two stores through casts. */
  method UnloadTo(s: Symbol, dest: array<byte>)
    requires dest.Length >= SYMBOL_DISKSIZE
    modifies dest
    ensures dest[..] == Unload(s, old(dest[..]))
  {
    Store(dest, SYMBOL_REFCOUNT_OFFSET, U32Le(s.refCount));
    Store(dest, SYMBOL_STRINGID_OFFSET, U64Le(s.stringId));
    assert dest[..] == Splice(old(dest[..]), 0, Encode(s)) by {
      var enc := Encode(s);
      forall i | 0 <= i < SYMBOL_DISKSIZE ensures dest[i] == enc[i] {
        if i < 4 { assert enc[i] == enc[..4][i]; } else { assert enc[i] == enc[4..][i - 4]; }
      }
    }
  }

  /** Loading an unloaded symbol recovers the count and the string id; the reference is cleared. */
  lemma LoadUnload(s: Symbol, dest: seq<byte>)
    requires |dest| >= SYMBOL_DISKSIZE
    ensures Load(s.id, Unload(s, dest)) == s.(stringRef := Properties.Null)
  {
    var r := Unload(s, dest);
    assert r[0..][..4] == U32Le(s.refCount)[..4];
    U32RoundTrip(s.refCount);
    assert r[4..][..8] == U64Le(s.stringId)[..8];
    U64RoundTrip(s.stringId);
  }

  /** Unloading a loaded symbol reproduces the 12 source bytes. */
  lemma UnloadLoad(id: u32, source: seq<byte>, dest: seq<byte>)
    requires |source| >= SYMBOL_DISKSIZE && |dest| >= SYMBOL_DISKSIZE
    ensures Unload(Load(id, source), dest)[..SYMBOL_DISKSIZE] == source[..SYMBOL_DISKSIZE]
  {
    U32BytesRoundTrip(source[0..]);
    U64BytesRoundTrip(source[4..]);
  }
}
