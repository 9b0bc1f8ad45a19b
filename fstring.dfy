/**
 * On-disk strings: a 4-byte LE length followed by the string's bytes. A loaded string does
 * not copy its bytes: its `data` is the source buffer from offset 4 on, of which the first
 * `size` bytes are the string.
 */
module FStrings {
  import opened Fabric
  import opened ByteOrder
  import opened Buffers

  const FSTRING_SIZE_OFFSET: nat := 0
  const FSTRING_DATA_OFFSET: nat := 4

  /** `data` stands for the bytes the `data` pointer reaches, from the pointer to the end of its buffer. */
  datatype FString = FString(id: u64, size: u32, data: seq<byte>)

  /** The string's bytes are all there: `data` reaches at least `size` bytes. */
  predicate Complete(s: FString)
  {
    |s.data| >= s.size
  }

  /** `fdb_fstring_load`: id from the caller, size as LE u32 at 0..4, data aliasing the buffer from offset 4. */
  function Load(id: u64, source: seq<byte>): (s: FString)
    requires |source| >= FSTRING_DATA_OFFSET
    ensures s.id == id && U32Le(s.size) == source[..FSTRING_DATA_OFFSET]
    ensures s.data == source[FSTRING_DATA_OFFSET..] && |s.data| == |source| - FSTRING_DATA_OFFSET
  {
    U32BytesRoundTrip(source[FSTRING_SIZE_OFFSET..]);
    FString(id, LeU32(source[FSTRING_SIZE_OFFSET..]), source[FSTRING_DATA_OFFSET..])
  }

  /** `fdb_fstring_unload` into `dest`: size at 0..4, exactly `size` data bytes at 4..4+size, nothing beyond. */
  function Unload(s: FString, dest: seq<byte>): (r: seq<byte>)
    requires Complete(s) && |dest| >= FSTRING_DATA_OFFSET + s.size
    ensures |r| == |dest|
    ensures r[..FSTRING_DATA_OFFSET] == U32Le(s.size)
    ensures r[FSTRING_DATA_OFFSET..FSTRING_DATA_OFFSET + s.size] == s.data[..s.size]
    ensures r[FSTRING_DATA_OFFSET + s.size..] == dest[FSTRING_DATA_OFFSET + s.size..]
  {
    var r := Splice(dest, 0, U32Le(s.size) + s.data[..s.size]);
    assert r[..FSTRING_DATA_OFFSET + s.size] == U32Le(s.size) + s.data[..s.size];
    assert r[..FSTRING_DATA_OFFSET] == r[..FSTRING_DATA_OFFSET + s.size][..4];
    assert r[FSTRING_DATA_OFFSET..FSTRING_DATA_OFFSET + s.size] == r[..FSTRING_DATA_OFFSET + s.size][4..];
    r
  }

  /** `fdb_fstring_unload` on the caller's buffer: the size through a cast, then a `memcpy` of the data. */
  method UnloadTo(s: FString, dest: array<byte>)
    requires Complete(s) && dest.Length >= FSTRING_DATA_OFFSET + s.size
    modifies dest
    ensures dest[..] == Unload(s, old(dest[..]))
  {
    Store(dest, FSTRING_SIZE_OFFSET, U32Le(s.size));
    Store(dest, FSTRING_DATA_OFFSET, s.data[..s.size]);
    assert dest[..] == Unload(s, old(dest[..])) by {
      var r := Unload(s, old(dest[..]));
      forall i | 0 <= i < dest.Length ensures dest[i] == r[i] {
        if i < 4 { assert r[i] == r[..4][i]; }
        else if i < 4 + s.size { assert r[i] == r[4..4 + s.size][i - 4]; }
        else { assert r[i] == r[4 + s.size..][i - 4 - s.size]; }
      }
    }
  }

  /** Loading an unloaded string gives the same size and the same `size` data bytes. */
  lemma LoadUnload(s: FString, dest: seq<byte>)
    requires Complete(s) && |dest| >= FSTRING_DATA_OFFSET + s.size
    ensures Load(s.id, Unload(s, dest)).id == s.id
    ensures Load(s.id, Unload(s, dest)).size == s.size
    ensures Complete(Load(s.id, Unload(s, dest)))
    ensures Load(s.id, Unload(s, dest)).data[..s.size] == s.data[..s.size]
  {
    var r := Unload(s, dest);
    assert r[0..][..4] == U32Le(s.size)[..4];
    U32RoundTrip(s.size);
    assert r[4..][..s.size] == r[4..4 + s.size];
  }

  /** Unloading a loaded string reproduces its length field and its `size` bytes. */
  lemma UnloadLoad(id: u64, source: seq<byte>, dest: seq<byte>)
    requires |source| >= FSTRING_DATA_OFFSET && Complete(Load(id, source))
    requires |dest| >= FSTRING_DATA_OFFSET + Load(id, source).size
    ensures Unload(Load(id, source), dest)[..FSTRING_DATA_OFFSET + Load(id, source).size]
         == source[..FSTRING_DATA_OFFSET + Load(id, source).size]
  {
    var s := Load(id, source);
    var r := Unload(s, dest);
    U32BytesRoundTrip(source[0..]);
    assert r[..4 + s.size] == r[..4] + r[4..4 + s.size];
    assert source[..4 + s.size] == source[..4] + source[4..][..s.size];
  }

  /** The C string of `s`: its `size` bytes followed by a 0 terminator. */
  function CString(s: FString): (r: seq<byte>)
    requires Complete(s)
    ensures |r| == s.size + 1 && r[s.size] == 0
    ensures r[..s.size] == s.data[..s.size]
  {
    s.data[..s.size] + [0]
  }

  /**
   * `fdb_fstring_tocstring`: allocates size + 1 bytes, copies the data and writes the
   * terminator; when the allocation fails it returns FABRICDB_ENOMEM and sets no output.
   */
  method ToCString(s: FString, allocOk: bool) returns (rc: Status, out: array?<byte>)
    requires Complete(s)
    ensures rc == Ok || rc == NoMem
    ensures rc == NoMem <==> !Allocates(s.size + 1, allocOk)
    ensures rc == Ok ==> out != null && fresh(out) && out[..] == CString(s)
    ensures rc == NoMem ==> out == null
  {
    if !Allocates(s.size + 1, allocOk) {
      return NoMem, null;
    }
    var cstring := new byte[s.size + 1];
    forall i | 0 <= i < s.size {
      cstring[i] := s.data[i];
    }
    cstring[s.size] := 0;
    return Ok, cstring;
  }

  /** The C string of a string read back from disk is the stored bytes plus the terminator. */
  lemma CStringOfStored(s: FString, dest: seq<byte>)
    requires Complete(s) && |dest| >= FSTRING_DATA_OFFSET + s.size
    ensures Complete(Load(s.id, Unload(s, dest)))
    ensures CString(Load(s.id, Unload(s, dest))) == s.data[..s.size] + [0]
  {
    LoadUnload(s, dest);
  }
}
