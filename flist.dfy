/** The 17-byte on-disk list entry: a property and the id of the next entry. */
module FLists {
  import opened Fabric
  import opened ByteOrder
  import opened Buffers
  import Properties

  const FLIST_ENTRY_OFFSET: nat := 0
  const FLIST_NEXTENTRYID_OFFSET: nat := 9
  const FLIST_DISKSIZE: nat := 17

  datatype FList = FList(id: u64, entry: Properties.Property, nextEntryId: u64)

  /** `fdb_flist_load`: id from the caller, the entry at 0..9, next entry id as LE u64 at 9..17. */
  function Load(id: u64, source: seq<byte>): (l: FList)
    requires |source| >= FLIST_DISKSIZE
    ensures l.id == id && l.entry.dataRef == Properties.Null
    ensures Properties.Encode(l.entry) == source[FLIST_ENTRY_OFFSET..FLIST_NEXTENTRYID_OFFSET]
  {
    FList(id,
      Properties.Load(source[FLIST_ENTRY_OFFSET..]),
      LeU64(source[FLIST_NEXTENTRYID_OFFSET..]))
  }

  function Encode(l: FList): (r: seq<byte>)
    ensures |r| == FLIST_DISKSIZE
    ensures r[FLIST_ENTRY_OFFSET..FLIST_NEXTENTRYID_OFFSET] == Properties.Encode(l.entry)
    ensures r[FLIST_NEXTENTRYID_OFFSET..] == U64Le(l.nextEntryId)
  {
    Properties.Encode(l.entry) + U64Le(l.nextEntryId)
  }

  /** `fdb_flist_unload` into `dest`: writes bytes 0..17 and nothing else. */
  function Unload(l: FList, dest: seq<byte>): (r: seq<byte>)
    requires |dest| >= FLIST_DISKSIZE
    ensures |r| == |dest| && r[FLIST_DISKSIZE..] == dest[FLIST_DISKSIZE..]
    ensures r[..FLIST_DISKSIZE] == Encode(l)
  {
    Splice(dest, 0, Encode(l))
  }

  /** `fdb_flist_unload` on the caller's buffer: the property, then the next entry id. */
  method UnloadTo(l: FList, dest: array<byte>)
    requires dest.Length >= FLIST_DISKSIZE
    modifies dest
    ensures dest[..] == Unload(l, old(dest[..]))
  {
    Store(dest, FLIST_ENTRY_OFFSET, Properties.Encode(l.entry));
    Store(dest, FLIST_NEXTENTRYID_OFFSET, U64Le(l.nextEntryId));
    assert dest[..] == Splice(old(dest[..]), 0, Encode(l)) by {
      var enc := Encode(l);
      forall i | 0 <= i < FLIST_DISKSIZE ensures dest[i] == enc[i] {
        if i < 9 { assert enc[i] == enc[..9][i]; } else { assert enc[i] == enc[9..][i - 9]; }
      }
    }
  }

  /** Loading an unloaded entry recovers the property and the next id; only the reference is lost. */
  lemma LoadUnload(l: FList, dest: seq<byte>)
    requires |dest| >= FLIST_DISKSIZE
    ensures Load(l.id, Unload(l, dest)) == l.(entry := l.entry.(dataRef := Properties.Null))
  {
    var r := Unload(l, dest);
    assert r[..9] == Properties.Encode(l.entry);
    Properties.LoadUnload(l.entry, r[0..]);
    assert r[9..][..8] == U64Le(l.nextEntryId)[..8];
    U64RoundTrip(l.nextEntryId);
  }

  /** Unloading a loaded entry reproduces the 17 source bytes. */
  lemma UnloadLoad(id: u64, source: seq<byte>, dest: seq<byte>)
    requires |source| >= FLIST_DISKSIZE && |dest| >= FLIST_DISKSIZE
    ensures Unload(Load(id, source), dest)[..FLIST_DISKSIZE] == source[..FLIST_DISKSIZE]
  {
    var p := Properties.Load(source[0..]);
    assert Properties.Encode(p) == source[..9];
    U64BytesRoundTrip(source[9..]);
  }
}
