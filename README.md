# fabricdb core, modelled in Dafny

This project models three sequential, allocation-only parts of fabricdb, an embedded graph database written in C.

- **Growable arrays** (`u32array`, `u8array`, `ubytearray`). One class, `GrowableArrays.GrowableArray<T>`, models all three instantiations of the generated template. Its fields are the capacity `size`, the length `count` and the buffer `data`. A NULL buffer is an array of length 0. The ghost `Elements()` is `data[..count]`. The allocator is an oracle flag `allocOk`, and a zero-byte request fails, as the allocator's NULL for zero bytes makes it. The unguarded `ubytearray` variants are separate methods (`SetSizeAlwaysAlloc`, `ReinitAlwaysAlloc`, `PopOrUnchecked`).
- **Chaining hash map** (`ptrmap`). The class `PtrMaps.PtrMap<V>` holds the bucket table as an `array` of chains. Each chain is the sequence of its entries in link order. A ghost `Contents` map is the map the table represents. The invariant `Inv` says:
  - every entry sits in bucket `key % size`;
  - no chain repeats a key;
  - every key of `Contents` is in its bucket;
  - the ratios are those `set_size` and `set` install.

  The float fill ratio `count / size` is kept as the exact quotient it is computed from. The growth test `0.7 < count / size` is `10 * count > 7 * size` (`ExceedsIsLess`).
- **Record codecs**. These are the 9-byte property, the 13-byte labeled property, and the edge, vertex, document, list-entry, symbol and string records. Each record is a datatype with a pure `Load` from bytes and a pure `Encode`/`Unload` into a caller's bytes. An `UnloadTo` method writes into an `array<byte>`, and its contract says the array afterwards is `Unload` of the old contents. Multi-byte fields are little-endian (`ByteOrder`), as on a little-endian host, where `htole*`/`letoh*` are identities. Round-trip lemmas are proved in both directions. The `to*` readers of a property's data bytes are functions, each with a lemma stating what it returns for a value stored under its type.

`ptrmap_deinit` frees the table but keeps `count`, `resizeRatio` and `fillRatio` (src/ptrmap.c:63-81). The general invariant therefore only bounds `|Contents|` by `count`. `Counted()` (`count == |Contents|`) is kept by every operation except `Deinit`.

## Model

| member | source | states |
|---|---|---|
| Fabric.DecU32 | src/u32array.c:107 | `count - 1` on a u32: one less for a positive count, and 2^32-1 (wrap-around) for 0 |
| ByteOrder.DecodeEncodeMod | src/byteorder.h:101-113 | decoding the n-byte LE encoding of any x gives x mod 256^n (a store truncates to the field's width) |
| ByteOrder.DecodeEncode | src/byteorder.h:101-113 | for x < 256^n, decoding its n-byte LE encoding gives x back |
| ByteOrder.EncodeDecode | src/byteorder.h:101-113 | re-encoding the LE value of any byte string at its own length gives back the same bytes |
| ByteOrder.U16RoundTrip | src/byteorder.h:101-113 | a u16 written LE reads back unchanged |
| ByteOrder.U32RoundTrip | src/byteorder.h:101-113 | a u32 written LE reads back unchanged |
| ByteOrder.U64RoundTrip | src/byteorder.h:101-113 | a u64 written LE reads back unchanged |
| ByteOrder.U16BytesRoundTrip | src/byteorder.h:101-113 | the u16 read from 2 bytes is written back as those 2 bytes |
| ByteOrder.U32BytesRoundTrip | src/byteorder.h:101-113 | the u32 read from 4 bytes is written back as those 4 bytes |
| ByteOrder.U64BytesRoundTrip | src/byteorder.h:101-113 | the u64 read from 8 bytes is written back as those 8 bytes |
| ByteOrder.LeU16 | src/byteorder.h:108 | `letohu16` of 2 stored bytes: the first byte is the least significant (the value mod 256 is byte 0); U16BytesRoundTrip makes it the inverse of U16Le |
| ByteOrder.LeU32 | src/byteorder.h:110 | `letohu32` of 4 stored bytes: byte 0 is the least significant; U32BytesRoundTrip makes it the inverse of U32Le |
| ByteOrder.LeU64 | src/byteorder.h:112 | `letohu64` of 8 stored bytes: byte 0 is the least significant; U64BytesRoundTrip makes it the inverse of U64Le |
| ByteOrder.U16Le | src/byteorder.h:101 | `htoleu16`: 2 bytes, the first being the value mod 256; U16RoundTrip makes LeU16 read the value back |
| ByteOrder.U32Le | src/byteorder.h:103 | `htoleu32`: 4 bytes, the first being the value mod 256; U32RoundTrip makes LeU32 read the value back |
| ByteOrder.U64Le | src/byteorder.h:105 | `htoleu64`: 8 bytes, the first being the value mod 256; U64RoundTrip makes LeU64 read the value back |
| ByteOrder.ReadU16At | src/vertex.c:27-39 | a u16 stored at offset `off` of a buffer reads back from `off` |
| ByteOrder.ReadU32At | src/edge.c:27-33 | a u32 stored at offset `off` of a buffer reads back from `off` |
| ByteOrder.AsI32 | src/byteorder.h:101-113 | the signed reading of a 32-bit pattern is congruent to it mod 2^32 (two's complement) |
| ByteOrder.AsI64 | src/byteorder.h:101-113 | the signed reading of a 64-bit pattern is congruent to it mod 2^64 |
| ByteOrder.I32RoundTrip | src/byteorder.h:101-113 | an i32 written as 4 LE bytes and read back signed is unchanged |
| ByteOrder.I64RoundTrip | src/byteorder.h:101-113 | an i64 written as 8 LE bytes and read back signed is unchanged |
| Buffers.Splice | src/vertex.c:39-41 | a `memcpy(dest + off, bytes, n)`: same length, `bytes` at off..off+n, every other byte of `dest` kept |
| Buffers.SpliceAdjacent | src/property.c:110-114 | two stores to adjacent runs equal one store of their concatenation |
| Buffers.Store | src/vertex.c:39-41 | the array afterwards is its old contents with `bytes` spliced in at `off`, and nothing else changed |
| Properties.IsVoid | src/property.h:112 | `fdb_property_isvoid`: only a code below FALSE, i.e. VOID |
| Properties.IsBoolean | src/property.h:113 | `fdb_property_isboolean`: TRUE or FALSE, never void |
| Properties.IsNumeric | src/property.h:114 | `fdb_property_isnumeric`: INTEGER..DATE, never void or boolean |
| Properties.IsString | src/property.h:115 | `fdb_property_isstring`: STRING_0..STRING, never void, boolean or numeric |
| Properties.IsReference | src/property.h:116 | `fdb_property_isreference`: STRING and above, never void, boolean or numeric, and a string too exactly for STRING |
| Properties.ClassesCoverAllCodes | src/property.h:112-116 | every type code is void, boolean, numeric, string or reference; these classes are disjoint except that STRING (0x19) is both string and reference |
| Properties.NamedCodeClasses | src/property.h:25-48 | INTEGER, REAL, RATIO, UCHAR and DATE are numeric; DOCUMENT, ARRAY, SYMBOL and BLOB are references and not strings; STRING_8 is a string and not a reference |
| Properties.Load | src/property.c:25-29 | the in-memory reference is cleared and the loaded type and data encode back to exactly the 9 source bytes; LoadUnload makes it the inverse of Unload |
| Properties.Encode | src/property.h:62-64 | an on-disk property is exactly 9 bytes |
| Properties.Unload | src/property.c:31-34 | `dest[0]` is the type code, `dest[1..9]` the 8 data bytes, and bytes from 9 on are untouched |
| Properties.UnloadTo | src/property.c:31-34 | the caller's array afterwards is `Unload` of its old contents |
| Properties.LoadUnload | src/property.c:25-34 | loading an unloaded property gives back its type and data, with `dataRef` cleared |
| Properties.UnloadLoad | src/property.c:25-34 | unloading a loaded property reproduces the 9 source bytes |
| Properties.ToBool | src/property.c:36-42 | 1 exactly for TRUE, 0 for every other type code |
| Properties.ToI64 | src/property.c:44-51 | 0 for every type other than INTEGER and DATE |
| Properties.ToU64 | src/property.c:53-63 | 0 for every type other than DOCUMENT, ARRAY, BLOB and STRING |
| Properties.ToI32 | src/property.c:73-81 | 0 for every type other than UCHAR |
| Properties.ToU32 | src/property.c:83-90 | 0 for every type other than SYMBOL |
| Properties.ToRatio | src/property.c:92-103 | (0, 0) for every type other than RATIO |
| Properties.ToBoolStored | src/property.c:36-42 | a boolean stored as TRUE/FALSE reads back as 1/0 |
| Properties.ToI64Stored | src/property.c:44-51 | an i64 stored LE under INTEGER or DATE reads back unchanged |
| Properties.ToI64Exact | src/property.c:44-51 | for INTEGER and DATE, the value read is exactly the one whose LE bytes are `data` |
| Properties.ToU64Stored | src/property.c:53-63 | a u64 stored LE under DOCUMENT, ARRAY, BLOB or STRING reads back unchanged; under INTEGER, DATE or SYMBOL it reads as 0 |
| Properties.ToI32Stored | src/property.c:73-81 | an i32 stored LE in data bytes 0..4 under UCHAR reads back unchanged, whatever bytes 4..8 hold |
| Properties.ToU32Stored | src/property.c:83-90 | a u32 stored LE in data bytes 0..4 under SYMBOL reads back unchanged |
| Properties.ToRatioStored | src/property.c:92-103 | a ratio stored as two LE i32s under RATIO reads back unchanged |
| Properties.LoadLabeled | src/property.c:105-108 | the property is the one loaded from bytes 4..13, reference cleared; LoadEncodeLabeled/EncodeLoadLabeled make it the inverse of EncodeLabeled |
| Properties.EncodeLabeled | src/property.h:85-87 | an on-disk labeled property is exactly 13 bytes |
| Properties.UnloadLabeled | src/property.c:110-114 | bytes 0..13 are the LE label id followed by the encoded property; bytes from 13 on are untouched |
| Properties.UnloadLabeledTo | src/property.c:110-114 | the caller's array afterwards is `UnloadLabeled` of its old contents (label id stored, then the nested property unload at offset 4) |
| Properties.LoadEncodeLabeled | src/property.c:105-114 | decoding an encoded labeled property, whatever follows it, gives back the label id and the property with `dataRef` cleared |
| Properties.LoadUnloadLabeled | src/property.c:105-114 | loading an unloaded labeled property gives back the label id and the property with `dataRef` cleared |
| Properties.EncodeLoadLabeled | src/property.c:105-114 | encoding a loaded labeled property reproduces the 13 source bytes |
| Properties.UnloadLoadLabeled | src/property.c:105-114 | unloading a loaded labeled property reproduces the 13 source bytes |
| Edges.Load | src/edge.c:25-34 | the id is the caller's, the value is the property at bytes 4..13 with its reference cleared; LoadEncode/EncodeLoad make it the inverse of Encode |
| Edges.Encode | src/edge.c:36-50 | the 29 bytes are tiled by the symbol id at 0..4, the value at 4..13, and the from, to, from-next and to-next ids at 13, 17, 21 and 25, each LE u32 |
| Edges.Unload | src/edge.c:36-50 | bytes 0..29 are `Encode(e)` and bytes from 29 on are untouched |
| Edges.UnloadTo | src/edge.c:36-50 | the caller's array afterwards is `Unload` of its old contents |
| Edges.LoadEncode | src/edge.c:25-33 | decoding an encoded edge gives back every stored field, the id passed to load, and a cleared value reference |
| Edges.LoadUnload | src/edge.c:25-50 | loading an unloaded edge gives back the edge with its value reference cleared |
| Edges.EncodeLoad | src/edge.c:25-50 | encoding a loaded edge reproduces the 29 source bytes |
| Edges.UnloadLoad | src/edge.c:25-50 | unloading a loaded edge reproduces bytes 0..29 of the source |
| Vertices.Load | src/vertex.c:25-32 | the symbol id loaded is below 2^16 (it is read as a u16) |
| Vertices.EncodeTail | src/vertex.c:40-43 | bytes 4..21 are the value property, then the first-out and first-in edge ids as LE u32 |
| Vertices.Unload | src/vertex.c:34-44 | bytes 0..2 hold the symbol id mod 2^16, bytes 2..4 and everything from 21 on are untouched, and bytes 4..21 are `EncodeTail(v)` |
| Vertices.UnloadTo | src/vertex.c:34-44 | the caller's array afterwards is `Unload` of its old contents |
| Vertices.LoadTail | src/vertex.c:28-31 | from bytes holding `EncodeTail(v)` at 4..21, load recovers the value (reference cleared) and both edge ids |
| Vertices.LoadUnload | src/vertex.c:25-44 | loading an unloaded vertex recovers every field except that the symbol id comes back mod 2^16 and the value reference is cleared |
| Vertices.TailRoundTrip | src/vertex.c:28-43 | the fields loaded from bytes 4..21 encode back to those bytes |
| Vertices.UnloadLoad | src/vertex.c:25-44 | unloading a loaded vertex reproduces source bytes 0..2 and 4..21 and keeps the destination's bytes 2..4 |
| Vertices.SymbolIdAbove16BitsIsLost | src/vertex.c:27-39 | any symbol id of 2^16 or more changes across an unload and a load |
| Vertices.LoadIntended | src/vertex.h:40-44 | the layout as designed: the id is the caller's and the symbol id is the whole 4-byte field at 0..4; IntendedLoadUnload/IntendedUnloadLoad make it the inverse of UnloadIntended |
| Vertices.EncodeIntended | src/vertex.h:40-44 | the layout as designed: the symbol id as a 4-byte LE u32 at 0..4, then `EncodeTail(v)` |
| Vertices.UnloadIntended | src/vertex.h:40-44 | bytes 0..21 are `EncodeIntended(v)` and everything from 21 on is untouched |
| Vertices.IntendedLoadUnload | src/vertex.h:40-44 | with the 4-byte field, loading an unloaded vertex recovers every field, the full symbol id included |
| Vertices.IntendedUnloadLoad | src/vertex.h:40-44 | with the 4-byte field, unloading a loaded vertex reproduces all 21 source bytes |
| Documents.Load | src/document.c:25-29 | the id is the caller's and the entry's reference is cleared; LoadUnload/UnloadLoad make it the inverse of Unload |
| Documents.Encode | src/document.c:31-35 | the 21 bytes are the labeled entry at 0..13 and the next entry id as LE u64 at 13..21 |
| Documents.Unload | src/document.c:31-35 | bytes 0..21 are `Encode(d)` and bytes from 21 on are untouched |
| Documents.UnloadTo | src/document.c:31-35 | the caller's array afterwards is `Unload` of its old contents |
| Documents.LoadUnload | src/document.c:25-35 | loading an unloaded document entry gives it back with the entry's value reference cleared |
| Documents.UnloadLoad | src/document.c:25-35 | unloading a loaded document entry reproduces the 21 source bytes |
| FLists.Load | src/flist.c:25-29 | the id is the caller's, the entry is the property at bytes 0..9 with its reference cleared; LoadUnload/UnloadLoad make it the inverse of Unload |
| FLists.Encode | src/flist.c:31-35 | the 17 bytes are the entry property at 0..9 and the next entry id as LE u64 at 9..17 |
| FLists.Unload | src/flist.c:31-35 | bytes 0..17 are `Encode(l)` and bytes from 17 on are untouched |
| FLists.UnloadTo | src/flist.c:31-35 | the caller's array afterwards is `Unload` of its old contents |
| FLists.LoadUnload | src/flist.c:25-35 | loading an unloaded list entry gives it back with the entry's reference cleared |
| FLists.UnloadLoad | src/flist.c:25-35 | unloading a loaded list entry reproduces the 17 source bytes |
| Symbols.Load | src/symbol.c:25-30 | a loaded symbol's string reference is cleared |
| Symbols.Encode | src/symbol.c:32-35 | the 12 bytes are the reference count as LE u32 at 0..4 and the string id as LE u64 at 4..12 |
| Symbols.Unload | src/symbol.c:32-35 | bytes 0..12 are `Encode(s)` and bytes from 12 on are untouched |
| Symbols.UnloadTo | src/symbol.c:32-35 | the caller's array afterwards is `Unload` of its old contents |
| Symbols.LoadUnload | src/symbol.c:25-35 | loading an unloaded symbol gives it back with its string reference cleared |
| Symbols.UnloadLoad | src/symbol.c:25-35 | unloading a loaded symbol reproduces the 12 source bytes |
| FStrings.Load | src/fstring.c:27-31 | the id is the caller's, the size is the LE u32 whose 4 bytes are source bytes 0..4, and `data` is the source from offset 4 on, aliased rather than copied |
| FStrings.Unload | src/fstring.c:33-38 | bytes 0..4 hold the size as LE u32, bytes 4..4+size the first `size` data bytes, and the rest is untouched |
| FStrings.UnloadTo | src/fstring.c:33-38 | the caller's array afterwards is `Unload` of its old contents |
| FStrings.LoadUnload | src/fstring.c:27-38 | loading an unloaded string gives the same id, the same size and the same `size` data bytes |
| FStrings.UnloadLoad | src/fstring.c:27-38 | unloading a loaded string reproduces the source's size field and its `size` data bytes |
| FStrings.CString | src/fstring.c:40-52 | size+1 bytes: the string's data followed by a 0 terminator at index size |
| FStrings.ToCString | src/fstring.c:40-52 | NoMem, with no output, exactly when allocating size+1 bytes fails; otherwise a fresh buffer holding `CString(s)` |
| FStrings.CStringOfStored | src/fstring.c:27-52 | the C string of a stored and reloaded string is its original data plus the terminator |
| GrowableArrays.GrowableArray.constructor | src/u32array.c:22-49 | the zero-filled struct: no buffer, size 0, count 0, no elements |
| GrowableArrays.GrowableArray.SetSize | src/u32array.c:22-49 | NoMem, with nothing changed, exactly when n > 0 and allocation fails; otherwise size is n, count is min(count, n) and the kept prefix of the elements is unchanged, for every min(count, n) (the intended copy; see Findings for `int copyLen`) |
| GrowableArrays.GrowableArray.SetSizeAlwaysAlloc | src/ubytearray.c:8-32 | as SetSize, but every size is allocated, so n = 0 fails with NoMem and changes nothing |
| GrowableArrays.CopyBytesAsWritten | src/u32array.c:22-41 | the `memcpy` byte count as written, from the signed `int copyLen`: always below 2^64 |
| GrowableArrays.CopyBytesExact | src/u32array.c:22-41 | below 2^31 elements the as-written byte count is min(count, n) times the element size |
| GrowableArrays.CopyBytesWraps | src/u32array.c:22-41 | from 2^31 elements on the as-written byte count is at least 2^64-2^33, more than any buffer of at most 2^32-1 elements holds |
| GrowableArrays.GrowableArray.Deinit | src/u32array.c:51-56 | no buffer, size 0, count 0 |
| GrowableArrays.GrowableArray.Reinit | src/u32array.c:58-61 | empty afterwards; size n on success, 0 on failure, with SetSize's return code |
| GrowableArrays.GrowableArray.ReinitAlwaysAlloc | src/ubytearray.c:41-44 | empty afterwards; size n on success, 0 on failure (n = 0 included), with SetSizeAlwaysAlloc's return code |
| GrowableArrays.GrowableArray.Has | src/u32array.c:63-65 | true exactly when index < count |
| GrowableArrays.GrowableArray.GetOr | src/u32array.c:67-73 | the element at index when index < count, the default otherwise |
| GrowableArrays.GrowableArray.GetRef | src/u32array.c:75-81 | no location exactly when index >= count; otherwise slot `index` of the buffer |
| GrowableArrays.GrowableArray.WriteRef | src/u32array.c:80 | a write through a location from GetRef replaces exactly that element |
| GrowableArrays.GrowableArray.Set | src/u32array.c:83-100 | IndexOutOfBounds with nothing changed when index > count; replaces only element index when index < count; appends when index == count, growing a full array to 2*size+1 first |
| GrowableArrays.GrowableArray.Push | src/u32array.c:102-104 | appends the value, growing a full array to 2*size+1 first |
| GrowableArrays.GrowableArray.PopOr | src/u32array.c:106-112 | on a non-empty array returns the last element and removes it; on an empty array returns the default and count stays 0 |
| GrowableArrays.GrowableArray.PopOrUnchecked | src/ubytearray.c:89-93 | as PopOr on a non-empty array; on an empty one returns the default but count wraps to 2^32-1, breaking `count <= size` |
| PtrMaps.BucketIsMod | src/ptrmap.c:32 | the bucket the model uses for a key is key mod size |
| PtrMaps.HashedPrepend | src/ptrmap.c:32-34 | linking an entry with a new key at the head of its bucket keeps the table representing the map extended by that key |
| PtrMaps.HashedAppend | src/ptrmap.c:170-173 | linking an entry with a new key at the tail of its bucket keeps the table representing the map extended by that key |
| PtrMaps.HashedReplace | src/ptrmap.c:166-168 | overwriting an entry's value in place keeps the table representing the map with that key's value replaced |
| PtrMaps.AddressedBucket | src/ptrmap.c:29-34 | the slot the doubly scaled address reaches lies beyond bucket i for every i > 0 |
| PtrMaps.AddressedBucketOverruns | src/ptrmap.c:29-34 | as written, the last bucket of any table of two or more buckets is addressed past the table's end, and the rehash reads and stores a bucket through different slots |
| PtrMaps.SetSlotUnreadByRehash | src/ptrmap.c:159-162 | as written, a chain `set` links at slot 8*i for a bucket i not a multiple of 3 is at no slot 24*j the rehash (line 29) reads, so `set_size` never moves it |
| PtrMaps.AboveResizeRatio | src/ptrmap.c:146 | for v = num/den, 0.7 < v exactly when 10*num > 7*den |
| PtrMaps.ExceedsIsLess | src/ptrmap.c:146 | the integer growth test agrees with `resizeRatio < fillRatio` for both ratios a map can hold |
| PtrMaps.RelinkChain | src/ptrmap.c:30-36 | after relinking one chain, the new table represents the relinked keys plus the chain's keys, with m's values |
| PtrMaps.Rehash | src/ptrmap.c:25-41 | the new table holds every entry of the old one, each in bucket key mod the new size |
| PtrMaps.Rebuilt | src/ptrmap.c:18-41 | a fresh table of n buckets that represents the same map as the old table |
| PtrMaps.Lookup | src/ptrmap.c:92-100 | a key is in the map exactly when it is in the chain of its bucket, and that entry's value is the map's |
| PtrMaps.FindInChain | src/ptrmap.c:95-100 | the position of the key's entry in a chain, or the chain's length exactly when the key is absent |
| PtrMaps.PutInChain | src/ptrmap.c:161-177 | an absent key is appended at the tail (or becomes the sole entry); a present key has only its value replaced |
| PtrMaps.SizedInv | src/ptrmap.c:43-46 | a table of n > 0 buckets representing the map satisfies the invariant with ratio 0.7 and fill count/n |
| PtrMaps.PutKeepsInv | src/ptrmap.c:158-179 | storing a key as `set` does keeps the invariant with the count raised exactly for a new key and the fill ratio count/size |
| PtrMaps.StoreBucket | src/ptrmap.c:162 | storing a chain head into bucket b replaces exactly that bucket of the table |
| PtrMaps.PutInTable | src/ptrmap.c:157-179 | the chain `set` leaves in the key's bucket keeps the invariant for the map with the key bound to the value; the key was new exactly when it was absent, and only then does the count rise |
| PtrMaps.PtrMap.constructor | src/ptrmap.h:3-15 | the zero-filled struct: no table, no entries, both ratios 0 |
| PtrMaps.PtrMap.SetSize | src/ptrmap.c:7-49 | NoMem, with the map unchanged, exactly when the allocation fails (n = 0 included); otherwise size n, the same count and map, ratio 0.7 and fill count/n |
| PtrMaps.PtrMap.Deinit | src/ptrmap.c:63-81 | no table and size 0; count and both ratios are kept |
| PtrMaps.PtrMap.Reinit | src/ptrmap.c:83-86 | an empty map afterwards, with SetSize's return code and its size and ratios on success |
| PtrMaps.PtrMap.Has | src/ptrmap.c:88-103 | true exactly when the key is stored |
| PtrMaps.PtrMap.GetOr | src/ptrmap.c:105-117 | the stored value for a stored key, the default otherwise |
| PtrMaps.PtrMap.GetRef | src/ptrmap.c:119-133 | no location exactly when the key is absent; otherwise the slot of its entry |
| PtrMaps.PtrMap.WriteRef | src/ptrmap.c:126 | a write through a location from GetRef replaces exactly that key's value |
| PtrMaps.PtrMap.Insert | src/ptrmap.c:154-179 | the map gains or updates the key, count rises exactly for a new key, and the fill ratio is count/size |
| PtrMaps.PtrMap.Set | src/ptrmap.c:135-182 | NoMem, with the map unchanged, when the entry or the triggered growth cannot be allocated; otherwise the table first grows to 2*size+1 when the fill ratio exceeds the resize ratio, then the key is stored as by Insert |

## Left out

- Floating point: `fdb_property_tof64` (src/property.c:65-71) is not modelled. The ptrmap `float` ratios are exact quotients. From about 5.6 million buckets on, a quotient just above 0.7 (count/size = 0.7 + 1/(10*size)) rounds to `0.7f`; there C's test `0.7f < fillRatio` is false while `Exceeds` is true, so C grows the table one `set` later than the model.
- Memory ownership in ptrmap is not modelled. This covers the recursive chain freeing (src/ptrmap.c:51-61) and the entry that `set` allocates and leaks when the key is already present. The model keeps only the outcome of the entry allocation.
- Pointer lifetime: `get_ref` returns a location, a buffer index or a bucket/position slot. A write through it is a separate `WriteRef`. Aliasing of that pointer across later resizes is not modelled.
- `labelRef` of a labeled property is not modelled, because load and unload never touch it.
- `FABRICDB_EINDEX_OUT_OF_BOUNDS` has no numeric value in src/fabric.h, so the model has the status `IndexOutOfBounds` without a code.
- u8array is the same class as u32array, instantiated at the byte type. The three templates differ only in element width and in the guards modelled separately.
- The byte count `ubytearray_set_size` requests, `sizeof(ubytearray) * size`, is more than it needs. Only whether that count is 0 matters to the model.
- Byte order: the host is taken to be little-endian. `byteorder.h`'s endianness detection and its swap routines are not part of this model.
- The allocator (src/mem.c) is an oracle flag. Its memory-use bookkeeping, os_unix, mutex, pager and fabric.c's `fabricdb_open` are not part of this model.
- FStrings.Load: `data` is modelled as the source buffer from offset 4 to its end (the pointer's reach), not only its first `size` bytes.
- FStrings.Unload: requires that `data` reach `size` bytes, which the C `memcpy` of `size` bytes assumes.
- GrowableArrays.GrowableArray.SetSize: does not state that slots past `count` are zero, although the new buffer is zero-filled.
- GrowableArrays.GrowableArray.SetSizeAlwaysAlloc: does not state that slots past `count` are zero, although `fdbmalloczero` zero-fills the new buffer (src/ubytearray.c:12).
- GrowableArrays.GrowableArray.Set: requires that the growth allocation succeed and that `2*size+1` fit in 32 bits. The code ignores the growth call's return code and would write past the buffer.
- GrowableArrays.GrowableArray.Push: has the same growth precondition as Set.
- PtrMaps.PtrMap.Has: requires `size > 0`; the code divides by `size`. GetOr and GetRef have the same requirement.
- PtrMaps.PtrMap.Set: requires `size > 0` unless the growth test fires. It also requires that `2*size+1` fit in 32 bits and that a new key not overflow `count`.
- PtrMaps.PtrMap.Insert: requires that a new key not overflow `count`.

## Findings

| source | as written | input that shows it | evidently intended | confidence | as-written member | corrected member |
|---|---|---|---|---|---|---|
| src/vertex.c:27-39 | the symbol id is read and written as a 2-byte u16, although the layout reserves 4 bytes for it (src/vertex.h:32,40) and the field is a u32 | a vertex with symbolId 0x10000 is unloaded and loaded back with symbolId 0 | a 4-byte LE u32 at bytes 0..4 | not executed | Vertices.SymbolIdAbove16BitsIsLost | Vertices.IntendedLoadUnload |
| src/ubytearray.c:89-93 | `pop_or` decrements `count` with no empty check | `pop_or` on an empty ubytearray leaves count = 2^32-1 > size | keep count at 0 on an empty array, as u32array and u8array do | not executed | GrowableArrays.GrowableArray.PopOrUnchecked | GrowableArrays.GrowableArray.PopOr |
| src/ptrmap.c:29-34 | bucket i is reached (here and at lines 73, 93, 107, 122, 159 and 162) at `items + sizeof(...) * i`, which C scales again by the pointer size, so the slot reached is 8*i or 24*i. The rehash reads old chains at slot 24*i; in the new table it reads the head at slot 8*i but stores the new head at slot 24*i | a 2-bucket table and key 1: bucket 1 is read at slot 8 of a 2-slot table; in any table of 2 or more buckets the last bucket is read at slot 8*(size-1), past the end; and in a 9-bucket table key 1 is linked at slot 8, which the rehash (reading slots 24*j) never moves | `items[i]` for every bucket access | not executed | PtrMaps.SetSlotUnreadByRehash | PtrMaps.PtrMap.Has |
| src/u32array.c:22-41 | `copyLen`, which holds min(count, n), is a signed `int` (also src/u8array.c:9 and src/ubytearray.c:9), so from 2^31 elements on it is negative, and `memcpy` receives it converted to `size_t` | a u8array grown with SetSize(2^32-1) and given 2^31 pushes, then SetSize(2^31+1): memcpy is asked for 2^64-2^31 bytes | copy min(count, n) elements, for example with `uint32_t copyLen`; SetSizeAlwaysAlloc is the same corrected copy for ubytearray | not executed | GrowableArrays.CopyBytesWraps | GrowableArrays.GrowableArray.SetSize |
