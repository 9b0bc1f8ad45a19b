/**
 * The Property value and its 9-byte on-disk form, the 13-byte LabeledProperty,
 * the data-type classification and the typed readers of a property's 8 data bytes.
 */
module Properties {
  import opened Fabric
  import opened ByteOrder
  import opened Buffers

  /** Data-type codes (the first byte of an on-disk property). */
  const DATATYPE_VOID: byte     := 0x00
  const DATATYPE_FALSE: byte    := 0x01
  const DATATYPE_TRUE: byte     := 0x02
  const DATATYPE_INTEGER: byte  := 0x03
  const DATATYPE_REAL: byte     := 0x04
  const DATATYPE_RATIO: byte    := 0x05
  const DATATYPE_UCHAR: byte    := 0x06
  const DATATYPE_DATE: byte     := 0x0F
  const DATATYPE_STRING_0: byte := 0x10
  const DATATYPE_STRING_8: byte := 0x18
  const DATATYPE_STRING: byte   := 0x19
  const DATATYPE_BLOB: byte     := 0x1F
  const DATATYPE_DOCUMENT: byte := 0x20
  const DATATYPE_ARRAY: byte    := 0x21
  const DATATYPE_SYMBOL: byte   := 0x22

  /** On-disk layout of a property: type code at 0, 8 data bytes at 1. */
  const PROPERTY_DATATYPE_OFFSET: nat := 0
  const PROPERTY_DATA_OFFSET: nat := 1
  const PROPERTY_DISKSIZE: nat := 9

  /** On-disk layout of a labeled property: label id at 0, property at 4. */
  const LABELED_PROPERTY_LABELID_OFFSET: nat := 0
  const LABELED_PROPERTY_PROPERTY_OFFSET: nat := 4
  const LABELED_PROPERTY_DISKSIZE: nat := 13

  /** An in-memory pointer field; the codecs only ever clear one. */
  datatype Ref = Null | Addr(addr: nat)

  type Bytes8 = s: seq<byte> | |s| == 8 witness [0, 0, 0, 0, 0, 0, 0, 0]

  datatype Property = Property(dataType: byte, data: Bytes8, dataRef: Ref)

  datatype LabeledProperty = LabeledProperty(labelId: u32, prop: Property)

  datatype Ratio = Ratio(numer: i32, denom: i32)

  // ---------------------------------------------------------------------------
  // Classification of data types

  predicate IsVoid(p: Property): (r: bool)
    ensures r ==> p.dataType < DATATYPE_FALSE
  {
    p.dataType == DATATYPE_VOID
  }

  predicate IsBoolean(p: Property): (r: bool)
    ensures r ==> !IsVoid(p)
  {
    p.dataType == DATATYPE_TRUE || p.dataType == DATATYPE_FALSE
  }

  predicate IsNumeric(p: Property): (r: bool)
    ensures r ==> !IsVoid(p) && !IsBoolean(p)
  {
    DATATYPE_INTEGER <= p.dataType <= DATATYPE_DATE
  }

  predicate IsString(p: Property): (r: bool)
    ensures r ==> !IsVoid(p) && !IsBoolean(p) && !IsNumeric(p)
  {
    DATATYPE_STRING_0 <= p.dataType <= DATATYPE_STRING
  }

  /** STRING (0x19) is the one code that is both a string and a reference. */
  predicate IsReference(p: Property): (r: bool)
    ensures r ==> !IsVoid(p) && !IsBoolean(p) && !IsNumeric(p)
    ensures r && IsString(p) <==> p.dataType == DATATYPE_STRING
  {
    p.dataType >= DATATYPE_STRING
  }

  /** Every type code falls in exactly one class, except STRING, which is both a string and a reference. */
  lemma ClassesCoverAllCodes(p: Property)
    ensures IsVoid(p) || IsBoolean(p) || IsNumeric(p) || IsString(p) || IsReference(p)
    ensures IsString(p) && IsReference(p) <==> p.dataType == DATATYPE_STRING
    ensures IsVoid(p) ==> !IsBoolean(p) && !IsNumeric(p) && !IsString(p) && !IsReference(p)
    ensures IsBoolean(p) ==> !IsNumeric(p) && !IsString(p) && !IsReference(p)
    ensures IsNumeric(p) ==> !IsString(p) && !IsReference(p)
  {
  }

  /** The named codes fall in the classes their names suggest. */
  lemma NamedCodeClasses(p: Property)
    ensures p.dataType in {DATATYPE_INTEGER, DATATYPE_REAL, DATATYPE_RATIO, DATATYPE_UCHAR, DATATYPE_DATE} ==> IsNumeric(p)
    ensures p.dataType in {DATATYPE_DOCUMENT, DATATYPE_ARRAY, DATATYPE_SYMBOL, DATATYPE_BLOB} ==> IsReference(p) && !IsString(p)
    ensures p.dataType == DATATYPE_STRING_8 ==> IsString(p) && !IsReference(p)
  {
  }

  // ---------------------------------------------------------------------------
  // Load and unload

  /** `fdb_property_load`: type code and data bytes from `source`; the in-memory reference is cleared. */
  function Load(source: seq<byte>): (p: Property)
    requires |source| >= PROPERTY_DISKSIZE
    ensures p.dataRef == Null && Encode(p) == source[..PROPERTY_DISKSIZE]
  {
    var p := Property(source[PROPERTY_DATATYPE_OFFSET], source[PROPERTY_DATA_OFFSET..PROPERTY_DATA_OFFSET + 8], Null);
    assert Encode(p) == source[..PROPERTY_DISKSIZE];
    p
  }

  /** The 9 bytes `fdb_property_unload` stores. */
  function Encode(p: Property): (r: seq<byte>)
    ensures |r| == PROPERTY_DISKSIZE
  {
    [p.dataType] + p.data
  }

  /** `fdb_property_unload` into the bytes `dest`: type code at 0, data at 1..9, nothing else. */
  function Unload(p: Property, dest: seq<byte>): (r: seq<byte>)
    requires |dest| >= PROPERTY_DISKSIZE
    ensures |r| == |dest| && r[PROPERTY_DISKSIZE..] == dest[PROPERTY_DISKSIZE..]
    ensures r[PROPERTY_DATATYPE_OFFSET] == p.dataType
    ensures r[PROPERTY_DATA_OFFSET..PROPERTY_DISKSIZE] == p.data
  {
    var r := Splice(dest, 0, Encode(p));
    assert r[..PROPERTY_DISKSIZE] == Encode(p);
    assert r[PROPERTY_DATA_OFFSET..PROPERTY_DISKSIZE] == r[..PROPERTY_DISKSIZE][1..];
    r
  }

  /** `fdb_property_unload` on the caller's buffer. */
  method UnloadTo(p: Property, dest: array<byte>)
    requires dest.Length >= PROPERTY_DISKSIZE
    modifies dest
    ensures dest[..] == Unload(p, old(dest[..]))
  {
    ghost var d0 := dest[..];
    Store(dest, PROPERTY_DATATYPE_OFFSET, [p.dataType]);
    Store(dest, PROPERTY_DATA_OFFSET, p.data);
    SpliceAdjacent(d0, 0, [p.dataType], p.data);
  }

  /** Loading what was unloaded gives back the type and data; only the reference is lost. */
  lemma LoadUnload(p: Property, dest: seq<byte>)
    requires |dest| >= PROPERTY_DISKSIZE
    ensures Load(Unload(p, dest)) == p.(dataRef := Null)
  {
  }

  /** Unloading what was loaded reproduces the 9 source bytes. */
  lemma UnloadLoad(source: seq<byte>, dest: seq<byte>)
    requires |source| >= PROPERTY_DISKSIZE && |dest| >= PROPERTY_DISKSIZE
    ensures Unload(Load(source), dest)[..PROPERTY_DISKSIZE] == source[..PROPERTY_DISKSIZE]
  {
    var r := Unload(Load(source), dest);
    assert r[..PROPERTY_DISKSIZE] == [r[0]] + r[1..PROPERTY_DISKSIZE];
    assert source[..PROPERTY_DISKSIZE] == [source[0]] + source[1..PROPERTY_DISKSIZE];
  }

  // ---------------------------------------------------------------------------
  // Typed readers

  /** `fdb_property_tobool`: 1 for TRUE and 0 for every other type. */
  function ToBool(p: Property): (r: byte)
    ensures r == 1 <==> p.dataType == DATATYPE_TRUE
    ensures r == 0 <==> p.dataType != DATATYPE_TRUE
  {
    match p.dataType
    case 0x02 => 1
    case _ => 0
  }

  /** `fdb_property_toi64`: the signed LE value of the data for INTEGER and DATE, 0 otherwise. */
  function ToI64(p: Property): (r: i64)
    ensures p.dataType != DATATYPE_INTEGER && p.dataType != DATATYPE_DATE ==> r == 0
  {
    match p.dataType
    case 0x03 | 0x0F => AsI64(LeU64(p.data))
    case _ => 0
  }

  /** `fdb_property_tou64`: the unsigned LE value of the data for DOCUMENT, ARRAY, BLOB and STRING, 0 otherwise. */
  function ToU64(p: Property): (r: u64)
    ensures p.dataType !in {DATATYPE_DOCUMENT, DATATYPE_ARRAY, DATATYPE_BLOB, DATATYPE_STRING} ==> r == 0
  {
    match p.dataType
    case 0x20 | 0x21 | 0x1F | 0x19 => LeU64(p.data)
    case _ => 0
  }

  /** `fdb_property_toi32`: the signed LE value of data bytes 0..4 for UCHAR, 0 otherwise. */
  function ToI32(p: Property): (r: i32)
    ensures p.dataType != DATATYPE_UCHAR ==> r == 0
  {
    match p.dataType
    case 0x06 => AsI32(LeU32(p.data))
    case _ => 0
  }

  /** `fdb_property_tou32`: the unsigned LE value of data bytes 0..4 for SYMBOL, 0 otherwise. */
  function ToU32(p: Property): (r: u32)
    ensures p.dataType != DATATYPE_SYMBOL ==> r == 0
  {
    match p.dataType
    case 0x22 => LeU32(p.data)
    case _ => 0
  }

  /** `fdb_property_toratio`: numerator from data bytes 0..4 and denominator from 4..8 for RATIO, (0, 0) otherwise. */
  function ToRatio(p: Property): (r: Ratio)
    ensures p.dataType != DATATYPE_RATIO ==> r == Ratio(0, 0)
  {
    match p.dataType
    case 0x05 => Ratio(AsI32(LeU32(p.data[..4])), AsI32(LeU32(p.data[4..])))
    case _ => Ratio(0, 0)
  }

  /** A boolean stored as TRUE or FALSE reads back as 1 or 0. */
  lemma ToBoolStored(b: bool, data: Bytes8, ref: Ref)
    ensures ToBool(Property(if b then DATATYPE_TRUE else DATATYPE_FALSE, data, ref)) == if b then 1 else 0
  {
  }

  /** An i64 stored little-endian under INTEGER or DATE reads back unchanged, and the reader loses no bits. */
  lemma ToI64Stored(t: byte, v: i64, ref: Ref)
    requires t == DATATYPE_INTEGER || t == DATATYPE_DATE
    ensures ToI64(Property(t, I64Le(v), ref)) == v
  {
    I64RoundTrip(v);
  }

  lemma ToI64Exact(p: Property)
    requires p.dataType == DATATYPE_INTEGER || p.dataType == DATATYPE_DATE
    ensures I64Le(ToI64(p)) == p.data
  {
    U64BytesRoundTrip(p.data);
    assert p.data[..8] == p.data;
  }

  /** A u64 stored little-endian under a reference type reads back unchanged; INTEGER, DATE and SYMBOL read 0. */
  lemma ToU64Stored(t: byte, v: u64, ref: Ref)
    requires t in {DATATYPE_DOCUMENT, DATATYPE_ARRAY, DATATYPE_BLOB, DATATYPE_STRING}
    ensures ToU64(Property(t, U64Le(v), ref)) == v
    ensures ToU64(Property(DATATYPE_INTEGER, U64Le(v), ref)) == 0
    ensures ToU64(Property(DATATYPE_DATE, U64Le(v), ref)) == 0
    ensures ToU64(Property(DATATYPE_SYMBOL, U64Le(v), ref)) == 0
  {
    U64RoundTrip(v);
  }

  /** An i32 stored in data bytes 0..4 of a UCHAR, or a u32 in those of a SYMBOL, reads back unchanged. */
  lemma ToI32Stored(v: i32, rest: seq<byte>, ref: Ref)
    requires |rest| == 4
    ensures ToI32(Property(DATATYPE_UCHAR, I32Le(v) + rest, ref)) == v
  {
    var d := I32Le(v) + rest;
    assert d[..4] == I32Le(v) == I32Le(v)[..4];
    assert LeU32(d) == LeU32(I32Le(v));
    I32RoundTrip(v);
  }

  lemma ToU32Stored(v: u32, rest: seq<byte>, ref: Ref)
    requires |rest| == 4
    ensures ToU32(Property(DATATYPE_SYMBOL, U32Le(v) + rest, ref)) == v
  {
    var d := U32Le(v) + rest;
    assert d[..4] == U32Le(v) == U32Le(v)[..4];
    assert LeU32(d) == LeU32(U32Le(v));
    U32RoundTrip(v);
  }

  /** A ratio stored as two LE i32 under RATIO reads back unchanged. */
  lemma ToRatioStored(r: Ratio, ref: Ref)
    ensures ToRatio(Property(DATATYPE_RATIO, I32Le(r.numer) + I32Le(r.denom), ref)) == r
  {
    var d := I32Le(r.numer) + I32Le(r.denom);
    assert d[..4] == I32Le(r.numer) && d[..4][..4] == d[..4];
    assert d[4..] == I32Le(r.denom) && d[4..][..4] == d[4..];
    I32RoundTrip(r.numer);
    I32RoundTrip(r.denom);
  }

  // ---------------------------------------------------------------------------
  // Labeled properties

  /** `fdb_labeledproperty_load`: label id as LE u32 at 0, property at 4. */
  function LoadLabeled(source: seq<byte>): (lp: LabeledProperty)
    requires |source| >= LABELED_PROPERTY_DISKSIZE
    ensures lp.prop.dataRef == Null
    ensures Encode(lp.prop) == source[LABELED_PROPERTY_PROPERTY_OFFSET..LABELED_PROPERTY_DISKSIZE]
  {
    assert source[LABELED_PROPERTY_PROPERTY_OFFSET..][..PROPERTY_DISKSIZE]
      == source[LABELED_PROPERTY_PROPERTY_OFFSET..LABELED_PROPERTY_DISKSIZE];
    LabeledProperty(LeU32(source[LABELED_PROPERTY_LABELID_OFFSET..]), Load(source[LABELED_PROPERTY_PROPERTY_OFFSET..]))
  }

  /** The 13 bytes `fdb_labeledproperty_unload` stores. */
  function EncodeLabeled(lp: LabeledProperty): (r: seq<byte>)
    ensures |r| == LABELED_PROPERTY_DISKSIZE
  {
    U32Le(lp.labelId) + Encode(lp.prop)
  }

  /** `fdb_labeledproperty_unload` into `dest`: writes bytes 0..13 and nothing else. */
  function UnloadLabeled(lp: LabeledProperty, dest: seq<byte>): (r: seq<byte>)
    requires |dest| >= LABELED_PROPERTY_DISKSIZE
    ensures |r| == |dest| && r[LABELED_PROPERTY_DISKSIZE..] == dest[LABELED_PROPERTY_DISKSIZE..]
    ensures r[..LABELED_PROPERTY_DISKSIZE] == EncodeLabeled(lp)
  {
    Splice(dest, 0, EncodeLabeled(lp))
  }

  /** `fdb_labeledproperty_unload` on the caller's buffer. */
  method UnloadLabeledTo(lp: LabeledProperty, dest: array<byte>)
    requires dest.Length >= LABELED_PROPERTY_DISKSIZE
    modifies dest
    ensures dest[..] == UnloadLabeled(lp, old(dest[..]))
  {
    ghost var d0 := dest[..];
    Store(dest, LABELED_PROPERTY_LABELID_OFFSET, U32Le(lp.labelId));
    // the nested property unload writes its 9 bytes at offset 4
    Store(dest, LABELED_PROPERTY_PROPERTY_OFFSET, Encode(lp.prop));
    SpliceAdjacent(d0, 0, U32Le(lp.labelId), Encode(lp.prop));
  }

  /** Decoding the 13 stored bytes gives back the label id and the property without its reference. */
  lemma LoadEncodeLabeled(lp: LabeledProperty, rest: seq<byte>)
    ensures LoadLabeled(EncodeLabeled(lp) + rest) == LabeledProperty(lp.labelId, lp.prop.(dataRef := Null))
  {
    var b := EncodeLabeled(lp) + rest;
    assert b[0..][..4] == U32Le(lp.labelId) == U32Le(lp.labelId)[..4];
    assert LeU32(b[0..]) == LeU32(U32Le(lp.labelId));
    assert b[4..][..9] == Encode(lp.prop);
    assert b[4..][0] == lp.prop.dataType && b[4..][1..9] == lp.prop.data;
    U32RoundTrip(lp.labelId);
  }

  lemma LoadUnloadLabeled(lp: LabeledProperty, dest: seq<byte>)
    requires |dest| >= LABELED_PROPERTY_DISKSIZE
    ensures LoadLabeled(UnloadLabeled(lp, dest)) == LabeledProperty(lp.labelId, lp.prop.(dataRef := Null))
  {
    var r := UnloadLabeled(lp, dest);
    assert r == EncodeLabeled(lp) + r[LABELED_PROPERTY_DISKSIZE..];
    LoadEncodeLabeled(lp, r[LABELED_PROPERTY_DISKSIZE..]);
  }

  /** The 13 bytes of a loaded labeled property are the bytes it was loaded from. */
  lemma EncodeLoadLabeled(source: seq<byte>)
    requires |source| >= LABELED_PROPERTY_DISKSIZE
    ensures EncodeLabeled(LoadLabeled(source)) == source[..LABELED_PROPERTY_DISKSIZE]
  {
    U32BytesRoundTrip(source);
    var p := Load(source[4..]);
    assert Encode(p) == source[4..13];
  }

  lemma UnloadLoadLabeled(source: seq<byte>, dest: seq<byte>)
    requires |source| >= LABELED_PROPERTY_DISKSIZE && |dest| >= LABELED_PROPERTY_DISKSIZE
    ensures UnloadLabeled(LoadLabeled(source), dest)[..LABELED_PROPERTY_DISKSIZE] == source[..LABELED_PROPERTY_DISKSIZE]
  {
    EncodeLoadLabeled(source);
  }
}
