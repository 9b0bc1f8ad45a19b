/** The 21-byte on-disk document entry: a labeled property and the id of the next entry. */
module Documents {
  import opened Fabric
  import opened ByteOrder
  import opened Buffers
  import Properties

  const DOCUMENT_ENTRY_OFFSET: nat := 0
  const DOCUMENT_NEXTENTRYID_OFFSET: nat := 13
  const DOCUMENT_DISKSIZE: nat := 21

  datatype Document = Document(id: u64, entry: Properties.LabeledProperty, nextEntryId: u64)

  /** `fdb_document_load`: id from the caller, the entry at 0..13, next entry id as LE u64 at 13..21. */
  function Load(id: u64, source: seq<byte>): (d: Document)
    requires |source| >= DOCUMENT_DISKSIZE
    ensures d.id == id && d.entry.prop.dataRef == Properties.Null
  {
    Document(id,
      Properties.LoadLabeled(source[DOCUMENT_ENTRY_OFFSET..]),
      LeU64(source[DOCUMENT_NEXTENTRYID_OFFSET..]))
  }

  function Encode(d: Document): (r: seq<byte>)
    ensures |r| == DOCUMENT_DISKSIZE
    ensures r[DOCUMENT_ENTRY_OFFSET..DOCUMENT_NEXTENTRYID_OFFSET] == Properties.EncodeLabeled(d.entry)
    ensures r[DOCUMENT_NEXTENTRYID_OFFSET..] == U64Le(d.nextEntryId)
  {
    Properties.EncodeLabeled(d.entry) + U64Le(d.nextEntryId)
  }

  /** `fdb_document_unload` into `dest`: writes bytes 0..21 and nothing else. */
  function Unload(d: Document, dest: seq<byte>): (r: seq<byte>)
    requires |dest| >= DOCUMENT_DISKSIZE
    ensures |r| == |dest| && r[DOCUMENT_DISKSIZE..] == dest[DOCUMENT_DISKSIZE..]
    ensures r[..DOCUMENT_DISKSIZE] == Encode(d)
  {
    Splice(dest, 0, Encode(d))
  }

  /** `fdb_document_unload` on the caller's buffer: the labeled property, then the next entry id. */
  method UnloadTo(d: Document, dest: array<byte>)
    requires dest.Length >= DOCUMENT_DISKSIZE
    modifies dest
    ensures dest[..] == Unload(d, old(dest[..]))
  {
    Store(dest, DOCUMENT_ENTRY_OFFSET, Properties.EncodeLabeled(d.entry));
    Store(dest, DOCUMENT_NEXTENTRYID_OFFSET, U64Le(d.nextEntryId));
    assert dest[..] == Splice(old(dest[..]), 0, Encode(d)) by {
      var enc := Encode(d);
      forall i | 0 <= i < DOCUMENT_DISKSIZE ensures dest[i] == enc[i] {
        if i < 13 { assert enc[i] == enc[..13][i]; } else { assert enc[i] == enc[13..][i - 13]; }
      }
    }
  }

  /** Loading an unloaded document recovers the entry and the next id; only the property's reference is lost. */
  lemma LoadUnload(d: Document, dest: seq<byte>)
    requires |dest| >= DOCUMENT_DISKSIZE
    ensures Load(d.id, Unload(d, dest)) == d.(entry := d.entry.(prop := d.entry.prop.(dataRef := Properties.Null)))
  {
    var r := Unload(d, dest);
    assert r[..13] == Properties.EncodeLabeled(d.entry);
    assert r[0..] == Properties.EncodeLabeled(d.entry) + r[13..];
    Properties.LoadEncodeLabeled(d.entry, r[13..]);
    assert r[13..][..8] == U64Le(d.nextEntryId)[..8];
    U64RoundTrip(d.nextEntryId);
  }

  /** Unloading a loaded document reproduces the 21 source bytes. */
  lemma UnloadLoad(id: u64, source: seq<byte>, dest: seq<byte>)
    requires |source| >= DOCUMENT_DISKSIZE && |dest| >= DOCUMENT_DISKSIZE
    ensures Unload(Load(id, source), dest)[..DOCUMENT_DISKSIZE] == source[..DOCUMENT_DISKSIZE]
  {
    Properties.EncodeLoadLabeled(source[0..]);
    U64BytesRoundTrip(source[13..]);
  }
}
