/** Byte-level vocabulary shared by the host and the firmware: bytes, opaque
    single-precision floats, an Option type, and the search and packing
    operations both ends of the serial link are built from. */
module Bytes {

  newtype byte = b: int | 0 <= b < 256

  newtype uint16 = x: int | 0 <= x < 0x1_0000

  /** The line-feed byte '\n' that ends every frame on the wire. */
  const NEWLINE: byte := 0x0A

  /** A single-precision float, kept as the four bytes it occupies in memory
      (little-endian); its numeric value is never interpreted. */
  type Float32 = s: seq<byte> | |s| == 4 witness [0, 0, 0, 0]

  /** The bit pattern of +0.0f, which is also what `memset(…, 0, …)` leaves. */
  const FLOAT_ZERO: Float32 := [0, 0, 0, 0]

  datatype Option<+T> = None | Some(value: T)

  function Zeros(n: nat): (z: seq<byte>)
    ensures |z| == n
    ensures forall i :: 0 <= i < n ==> z[i] == 0
  {
    seq(n, _ => 0)
  }

  /** The bytes of consecutive floats, as `memcpy` lays out a `float[]`. */
  function Flatten(fs: seq<Float32>): (b: seq<byte>)
    ensures |b| == 4 * |fs|
  {
    if fs == [] then [] else fs[0] + Flatten(fs[1..])
  }

  /** Reads consecutive floats back out of a byte block. */
  function Unflatten(b: seq<byte>): (fs: seq<Float32>)
    requires |b| % 4 == 0
    ensures |fs| == |b| / 4
    ensures forall i :: 0 <= i < |fs| ==> fs[i] == b[4 * i .. 4 * i + 4]
  {
    seq(|b| / 4, i requires 0 <= i < |b| / 4 => b[4 * i .. 4 * i + 4])
  }

  /** Float i of a flattened block sits at byte offset 4i. */
  lemma {:induction false} FlattenAt(fs: seq<Float32>, i: nat)
    requires i < |fs|
    ensures Flatten(fs)[4 * i .. 4 * i + 4] == fs[i]
  {
    if i > 0 {
      FlattenAt(fs[1..], i - 1);
      assert Flatten(fs) == fs[0] + Flatten(fs[1..]);
      assert Flatten(fs)[4 * i .. 4 * i + 4] == Flatten(fs[1..])[4 * (i - 1) .. 4 * (i - 1) + 4];
    }
  }

  lemma {:induction false} FlattenConcat(a: seq<Float32>, b: seq<Float32>)
    ensures Flatten(a + b) == Flatten(a) + Flatten(b)
  {
    if a != [] {
      assert (a + b)[0] == a[0];
      assert (a + b)[1..] == a[1..] + b;
      FlattenConcat(a[1..], b);
      assert Flatten(a + b) == a[0] + Flatten(a[1..] + b);
      assert Flatten(a) == a[0] + Flatten(a[1..]);
    } else {
      assert a + b == b;
    }
  }

  lemma UnflattenFlatten(fs: seq<Float32>)
    ensures Unflatten(Flatten(fs)) == fs
  {
    forall i | 0 <= i < |fs|
      ensures Unflatten(Flatten(fs))[i] == fs[i]
    {
      FlattenAt(fs, i);
    }
  }

  lemma {:induction false} FlattenUnflatten(b: seq<byte>)
    requires |b| % 4 == 0
    ensures Flatten(Unflatten(b)) == b
  {
    if b != [] {
      var fs := Unflatten(b);
      FlattenUnflatten(b[4..]);
      assert fs[1..] == Unflatten(b[4..]) by {
        forall i | 0 <= i < |fs| - 1
          ensures fs[1..][i] == Unflatten(b[4..])[i]
        {
          assert b[4..][4 * i .. 4 * i + 4] == b[4 * (i + 1) .. 4 * (i + 1) + 4];
        }
      }
      assert Flatten(fs) == fs[0] + Flatten(fs[1..]);
      assert b == b[..4] + b[4..];
    }
  }

  /** Pattern `pat` occurs in `s` starting at index i. */
  predicate OccursAt(s: seq<byte>, pat: seq<byte>, i: nat)
  {
    i + |pat| <= |s| && s[i .. i + |pat|] == pat
  }

  /** i is the first occurrence of `pat` in `s` at or after `from`. */
  predicate FirstOccurrence(s: seq<byte>, pat: seq<byte>, from: nat, i: nat)
  {
    from <= i && OccursAt(s, pat, i) && forall j :: from <= j < i ==> !OccursAt(s, pat, j)
  }

  /** `pat` does not occur in `s` at or after `from`. */
  ghost predicate AbsentFrom(s: seq<byte>, pat: seq<byte>, from: nat)
  {
    forall j :: from <= j ==> !OccursAt(s, pat, j)
  }

  /** Python's `bytes.find(pat, from)`: the lowest index at or after `from`
      where `pat` occurs, or None where Python returns -1. */
  function Find(s: seq<byte>, pat: seq<byte>, from: nat): (r: Option<nat>)
    ensures r.Some? ==> FirstOccurrence(s, pat, from, r.value)
    ensures r.None? ==> AbsentFrom(s, pat, from)
    decreases |s| - from
  {
    if from + |pat| > |s| then None
    else if s[from .. from + |pat|] == pat then Some(from)
    else Find(s, pat, from + 1)
  }

  /** The first occurrence is unique, so Find returns exactly it. */
  lemma FindFirst(s: seq<byte>, pat: seq<byte>, from: nat, i: nat)
    requires FirstOccurrence(s, pat, from, i)
    ensures Find(s, pat, from) == Some(i)
  {
    assert OccursAt(s, pat, i);
  }

  /** A window of a slice is the matching window of the whole sequence. */
  lemma SliceWindow(s: seq<byte>, lo: nat, hi: nat, i: nat, j: nat)
    requires lo <= hi <= |s| && i <= j <= hi - lo
    ensures s[lo..hi][i..j] == s[lo + i .. lo + j]
  {
    assert forall m :: 0 <= m < j - i ==> s[lo..hi][i..j][m] == s[lo + i + m];
  }

  /** `dst[at ..]` := `src`, as `memcpy`/`memset` and EEPROM writes do. */
  method WriteBytes(dst: array<byte>, at: nat, src: seq<byte>)
    requires at + |src| <= dst.Length
    modifies dst
    ensures dst[..] == old(dst[..at]) + src + old(dst[at + |src| ..])
  {
    forall i | at <= i < at + |src| {
      dst[i] := src[i - at];
    }
    assert dst[..] == old(dst[..at]) + src + old(dst[at + |src| ..]) by {
      forall i | 0 <= i < dst.Length
        ensures dst[..][i] == (old(dst[..at]) + src + old(dst[at + |src| ..]))[i]
      {
      }
    }
  }
}
