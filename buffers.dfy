/** Writing a run of bytes into a caller's buffer, as `memcpy(dest + off, src, n)` does. */
module Buffers {
  import opened Fabric

  /** `dest` with `bytes` written at offset `off`; every other byte is kept. */
  function Splice(dest: seq<byte>, off: nat, bytes: seq<byte>): (r: seq<byte>)
    requires off + |bytes| <= |dest|
    ensures |r| == |dest|
    ensures r[off..off + |bytes|] == bytes
    ensures forall i :: 0 <= i < |dest| && !(off <= i < off + |bytes|) ==> r[i] == dest[i]
  {
    dest[..off] + bytes + dest[off + |bytes|..]
  }

  /** A run inside a run is a run of the whole. */
  lemma SliceOfSlice(s: seq<byte>, i: nat, j: nat, a: nat, b: nat)
    requires i <= j <= |s| && a <= b <= j - i
    ensures s[i..j][a..b] == s[i + a..i + b]
  {
    forall k | 0 <= k < b - a ensures s[i..j][a..b][k] == s[i + a..i + b][k] {
      assert s[i..j][a..b][k] == s[i..j][a + k];
    }
  }

  /** Two stores to adjacent runs are one store of their concatenation. */
  lemma SpliceAdjacent(dest: seq<byte>, off: nat, a: seq<byte>, b: seq<byte>)
    requires off + |a| + |b| <= |dest|
    ensures Splice(Splice(dest, off, a), off + |a|, b) == Splice(dest, off, a + b)
  {
    var s := Splice(dest, off, a);
    assert s[..off + |a|] == dest[..off] + a;
    assert s[off + |a| + |b|..] == dest[off + |a| + |b|..];
  }

  /** The store itself, on an array: only `dest[off..off + |bytes|]` changes. */
  method Store(dest: array<byte>, off: nat, bytes: seq<byte>)
    requires off + |bytes| <= dest.Length
    modifies dest
    ensures dest[..] == Splice(old(dest[..]), off, bytes)
  {
    forall i | 0 <= i < |bytes| {
      dest[off + i] := bytes[i];
    }
    assert dest[..] == Splice(old(dest[..]), off, bytes) by {
      var s := Splice(old(dest[..]), off, bytes);
      forall i | 0 <= i < dest.Length ensures dest[i] == s[i] {
        if off <= i < off + |bytes| {
          assert s[i] == s[off..off + |bytes|][i - off];
        }
      }
    }
  }
}
