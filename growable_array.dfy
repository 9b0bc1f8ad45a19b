/**
 * The growable array generated per element type (u32array, u8array, ubytearray):
 * capacity `size`, length `count` and a buffer `data` of `size` elements, of which the
 * first `count` are the array's elements. A NULL buffer is an array of length 0; in all
 * three instantiations the buffer is NULL exactly when `size` is 0.
 *
 * u32array and u8array guard `set_size` against a zero size and `pop_or` against an
 * empty array; ubytearray has neither guard (`SetSizeAlwaysAlloc`, `PopOrUnchecked`).
 * Allocation is an oracle: `allocOk` says whether the allocator would succeed.
 */
module GrowableArrays {
  import opened Fabric
  import ByteOrder

  const SIZE_T_MODULUS: nat := 0x1_0000_0000_0000_0000

  /**
   * The byte count `set_size` hands to `memcpy`, as written: min(count, n) is held in a
   * signed 32-bit `int copyLen`, which the multiplication by the element size (or, in
   * ubytearray, the call itself) converts to a 64-bit `size_t`. `elemSize` is 4 for
   * u32array and 1 for u8array and ubytearray.
   */
  function CopyBytesAsWritten(count: u32, n: u32, elemSize: nat): (r: nat)
    ensures r < SIZE_T_MODULUS
  {
    var copyLen := ByteOrder.AsI32(if n < count then n else count);
    (copyLen % SIZE_T_MODULUS) * elemSize % SIZE_T_MODULUS
  }

  /** Below 2^31 elements the as-written count is the intended min(count, n) * elemSize. */
  lemma CopyBytesExact(count: u32, n: u32, elemSize: nat)
    requires (if n < count then n else count) < 0x8000_0000
    requires elemSize == 1 || elemSize == 4
    ensures CopyBytesAsWritten(count, n, elemSize) == (if n < count then n else count) * elemSize
  {
  }

  /**
   * From 2^31 elements on, `copyLen` is negative and the count `memcpy` receives is at
   * least 2^64 - 2^33 bytes: far more than either buffer holds, where the intended count
   * is min(count, n) * elemSize.
   */
  lemma CopyBytesWraps(count: u32, n: u32, elemSize: nat)
    requires (if n < count then n else count) >= 0x8000_0000
    requires elemSize == 1 || elemSize == 4
    ensures CopyBytesAsWritten(count, n, elemSize) >= SIZE_T_MODULUS - 0x2_0000_0000
    ensures CopyBytesAsWritten(count, n, elemSize) > 0xFFFF_FFFF * elemSize
  {
    var m := if n < count then n else count;
    var copyLen := ByteOrder.AsI32(m);
    assert copyLen == m - 0x1_0000_0000;
    DivModUnique(copyLen, SIZE_T_MODULUS, -1, copyLen + SIZE_T_MODULUS);
    var wrapped := copyLen + SIZE_T_MODULUS;
    var low := elemSize * copyLen + SIZE_T_MODULUS;
    assert wrapped * elemSize == SIZE_T_MODULUS * (elemSize - 1) + low;
    DivModUnique(wrapped * elemSize, SIZE_T_MODULUS, elemSize - 1, low);
  }

  class GrowableArray<T(0)> {
    var size: u32
    var count: u32
    var data: array<T>

    ghost predicate Valid()
      reads this
    {
      data.Length == size && count <= size
    }

    /** The elements: the populated prefix of the buffer. */
    ghost function Elements(): (s: seq<T>)
      reads this, data
      requires Valid()
      ensures |s| == count
    {
      data[..count]
    }

    /** A zero-filled struct: no buffer, capacity 0, length 0. */
    constructor ()
      ensures Valid() && size == 0 && count == 0 && Elements() == []
    {
      size := 0;
      count := 0;
      data := new T[0];
    }

    /**
     * `u32array_set_size` / `u8array_set_size`: a new zeroed buffer of exactly `n` slots
     * holding the first min(count, n) elements; `count` is truncated to `n`. A size of 0
     * allocates nothing. On allocation failure nothing changes. The copy is the intended
     * one for every length; `CopyBytesWraps` shows what the signed `copyLen` passes instead.
     */
    method SetSize(n: u32, allocOk: bool) returns (rc: Status)
      requires Valid()
      modifies this
      ensures Valid()
      ensures rc == (if n > 0 && !allocOk then NoMem else Ok)
      ensures rc == NoMem ==> size == old(size) && count == old(count) && data == old(data)
      ensures rc == Ok ==> size == n && count == (if n < old(count) then n else old(count))
      ensures rc == Ok ==> fresh(data) && Elements() == old(Elements())[..count]
    {
      var newData: array<T>;
      if n > 0 {
        if !allocOk {
          return NoMem;
        }
      }
      newData := new T[n];
      if size > 0 {
        var copyLen := count;
        if n < copyLen {
          count := n;
          copyLen := n;
        }
        forall i | 0 <= i < copyLen {
          newData[i] := data[i];
        }
      }
      size := n;
      data := newData;
      return Ok;
    }

    /**
     * `ubytearray_set_size`: the same, except that it always calls the allocator, so a size
     * of 0 is a zero-byte request, which yields NULL and fails with FABRICDB_ENOMEM.
     * The copy is the intended one for every length, as in `SetSize`.
     */
    method SetSizeAlwaysAlloc(n: u32, allocOk: bool) returns (rc: Status)
      requires Valid()
      modifies this
      ensures Valid()
      ensures rc == (if Allocates(n, allocOk) then Ok else NoMem)
      ensures rc == NoMem ==> size == old(size) && count == old(count) && data == old(data)
      ensures rc == Ok ==> size == n && count == (if n < old(count) then n else old(count))
      ensures rc == Ok ==> fresh(data) && Elements() == old(Elements())[..count]
    {
      if !Allocates(n, allocOk) {
        return NoMem;
      }
      var newData := new T[n];
      if size > 0 {
        var copyLen := count;
        if n < copyLen {
          count := n;
          copyLen := n;
        }
        forall i | 0 <= i < copyLen {
          newData[i] := data[i];
        }
      }
      size := n;
      data := newData;
      return Ok;
    }

    /** `deinit`: frees the buffer and resets to the empty state. */
    method Deinit()
      modifies this
      ensures Valid() && size == 0 && count == 0 && Elements() == []
      ensures fresh(data)
    {
      data := new T[0];
      size := 0;
      count := 0;
    }

    /** `u32array_reinit` / `u8array_reinit`: `Deinit` then `SetSize(n)`, so the result is empty with capacity n. */
    method Reinit(n: u32, allocOk: bool) returns (rc: Status)
      modifies this
      ensures Valid() && count == 0 && Elements() == []
      ensures rc == (if n > 0 && !allocOk then NoMem else Ok)
      ensures size == (if rc == Ok then n else 0)
      ensures fresh(data)
    {
      Deinit();
      rc := SetSize(n, allocOk);
    }

    /** `ubytearray_reinit`: `Deinit` then `SetSizeAlwaysAlloc(n)`; `n == 0` leaves it empty and fails. */
    method ReinitAlwaysAlloc(n: u32, allocOk: bool) returns (rc: Status)
      modifies this
      ensures Valid() && count == 0 && Elements() == []
      ensures rc == (if Allocates(n, allocOk) then Ok else NoMem)
      ensures size == (if rc == Ok then n else 0)
      ensures fresh(data)
    {
      Deinit();
      rc := SetSizeAlwaysAlloc(n, allocOk);
    }

    /** `has`: whether `index` addresses an element. */
    method Has(index: u32) returns (b: bool)
      requires Valid()
      ensures b <==> index < |Elements()|
    {
      return index < count;
    }

    /** `get_or`: the element at `index`, or `def` past the end. */
    method GetOr(index: u32, def: T) returns (v: T)
      requires Valid()
      ensures index < |Elements()| ==> v == Elements()[index]
      ensures index >= |Elements()| ==> v == def
    {
      if index >= count {
        return def;
      }
      return data[index];
    }

    /** `get_ref`: the slot of the element at `index`, or no slot (NULL) past the end. */
    method GetRef(index: u32) returns (r: Option<nat>)
      requires Valid()
      ensures r.None? <==> index >= |Elements()|
      ensures r.Some? ==> r.value == index && r.value < data.Length
    {
      if index >= count {
        return None;
      }
      return Some(index);
    }

    /** A store through a reference `get_ref` returned: only that element changes. */
    method WriteRef(slot: nat, v: T)
      requires Valid() && slot < count
      modifies data
      ensures Valid() && Elements() == old(Elements())[slot := v]
    {
      data[slot] := v;
    }

    /**
     * `set`: overwrite an element in place, or append at `index == count` after growing a
     * full array to 2*size+1; `index > count` fails and changes nothing. The code ignores the
     * result of the growth call, so a growth must succeed and must not overflow `uint32_t`.
     */
    method Set(index: u32, value: T, allocOk: bool) returns (rc: Status)
      requires Valid()
      requires index == count && size == count ==> allocOk && size < 0x8000_0000
      modifies this, data
      ensures Valid()
      ensures rc == (if index > old(count) then IndexOutOfBounds else Ok)
      ensures index > old(count) ==>
        size == old(size) && count == old(count) && data == old(data) && Elements() == old(Elements())
      ensures index < old(count) ==>
        size == old(size) && data == old(data) && Elements() == old(Elements())[index := value]
      ensures index == old(count) ==> Elements() == old(Elements()) + [value]
      ensures index == old(count) ==> size == if old(size) == old(count) then 2 * old(size) + 1 else old(size)
      ensures data == old(data) || fresh(data)
    {
      if index > count {
        return IndexOutOfBounds;
      }
      if index == count {
        if size == count {
          var _ := SetSize(size * 2 + 1, allocOk);
        }
        count := count + 1;
      }
      data[index] := value;
      return Ok;
    }

    /** `push`: `Set(count, value)`, an append. */
    method Push(value: T, allocOk: bool) returns (rc: Status)
      requires Valid()
      requires size == count ==> allocOk && size < 0x8000_0000
      modifies this, data
      ensures Valid() && rc == Ok
      ensures Elements() == old(Elements()) + [value]
      ensures size == if old(size) == old(count) then 2 * old(size) + 1 else old(size)
      ensures size >= old(size)
      ensures data == old(data) || fresh(data)
    {
      rc := Set(count, value, allocOk);
    }

    /** `u32array_pop_or` / `u8array_pop_or`: removes and returns the last element; on an empty array returns `def` and keeps `count` at 0. */
    method PopOr(def: T) returns (v: T)
      requires Valid()
      modifies this
      ensures Valid() && size == old(size) && data == old(data)
      ensures old(count) > 0 ==> v == old(Elements())[old(count) - 1] && Elements() == old(Elements())[..old(count) - 1]
      ensures old(count) == 0 ==> v == def && count == 0
    {
      v := GetOr(DecU32(count), def);
      if count > 0 {
        count := count - 1;
      }
    }

    /**
     * `ubytearray_pop_or` as written: `count` is decremented unconditionally, so popping an
     * empty array returns `def` but wraps `count` to 2^32 - 1, past the capacity.
     */
    method PopOrUnchecked(def: T) returns (v: T)
      requires Valid()
      modifies this
      ensures size == old(size) && data == old(data)
      ensures old(count) > 0 ==> Valid() && v == old(Elements())[old(count) - 1] && Elements() == old(Elements())[..old(count) - 1]
      ensures old(count) == 0 ==> v == def && count == U32_MAX
      ensures old(count) == 0 && size < U32_MAX ==> !Valid()
    {
      v := GetOr(DecU32(count), def);
      count := DecU32(count);
    }
  }
}
