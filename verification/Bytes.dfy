/** Bytes, fixed-width pixels and the sequence algebra the codecs share. */
module Bytes {

  type byte = x: int | 0 <= x < 0x100

  /** The concatenation of all parts. */
  function Flat(parts: seq<seq<byte>>): (r: seq<byte>)
    ensures parts == [] ==> r == []
  {
    if parts == [] then [] else parts[0] + Flat(parts[1..])
  }

  lemma {:induction false} FlatAppend(a: seq<seq<byte>>, b: seq<seq<byte>>)
    ensures Flat(a + b) == Flat(a) + Flat(b)
    decreases |a|
  {
    if a == [] {
      assert a + b == b;
    } else {
      assert (a + b)[1..] == a[1..] + b;
      FlatAppend(a[1..], b);
    }
  }

  predicate Sized(parts: seq<seq<byte>>, width: nat) {
    forall k :: 0 <= k < |parts| ==> |parts[k]| == width
  }

  lemma {:induction false} FlatLength(parts: seq<seq<byte>>, width: nat)
    requires Sized(parts, width)
    ensures |Flat(parts)| == |parts| * width
    decreases |parts|
  {
    if parts != [] {
      FlatLength(parts[1..], width);
      assert |parts| * width == width + (|parts| - 1) * width;
    }
  }

  /** Cuts s into whole parts of the given width; a shorter rest is dropped. */
  function Split(s: seq<byte>, width: nat): (parts: seq<seq<byte>>)
    requires width > 0
    ensures Sized(parts, width)
    decreases |s|
  {
    if |s| < width then [] else [s[..width]] + Split(s[width..], width)
  }

  lemma {:induction false} SplitOfFlat(parts: seq<seq<byte>>, width: nat)
    requires width > 0 && Sized(parts, width)
    ensures Split(Flat(parts), width) == parts
    decreases |parts|
  {
    if parts != [] {
      assert Flat(parts)[..width] == parts[0];
      assert Flat(parts)[width..] == Flat(parts[1..]);
      SplitOfFlat(parts[1..], width);
      assert parts == [parts[0]] + parts[1..];
    }
  }

  lemma {:induction false} SplitCounts(s: seq<byte>, width: nat, count: nat)
    requires width > 0 && |s| == count * width
    ensures |Split(s, width)| == count
    decreases count
  {
    if count > 0 {
      assert |s| == width + (count - 1) * width;
      SplitCounts(s[width..], width, count - 1);
    }
  }

  lemma {:induction false} FlatOfSplit(s: seq<byte>, width: nat, count: nat)
    requires width > 0 && |s| == count * width
    ensures Flat(Split(s, width)) == s
    decreases count
  {
    if count > 0 {
      assert |s| == width + (count - 1) * width;
      FlatOfSplit(s[width..], width, count - 1);
      assert s == s[..width] + s[width..];
    }
  }

  lemma OffsetFits(i: nat, n: nat, width: nat)
    requires i <= n
    ensures 0 <= i * width <= n * width
    ensures i < n ==> i * width + width <= n * width
  {
    if i < n {
      assert (i + 1) * width <= n * width;
    }
  }

  lemma Middle<T>(s: seq<T>, a: seq<T>, b: seq<T>, c: seq<T>, i: nat, j: nat)
    requires s == (a + b) + c && |a| == i && |a + b| == j
    ensures i <= j <= |s| && s[i..j] == b
  {
  }

  lemma Slices<T>(parts: seq<T>, i: nat, j: nat)
    requires i <= j <= |parts|
    ensures parts[..i] + parts[i..j] == parts[..j] && parts[..j] + parts[j..] == parts
  {
  }

  lemma SplitSizes(s: seq<byte>, width: nat, i: nat)
    requires width > 0 && i <= |Split(s, width)|
    ensures |Flat(Split(s, width)[..i])| == i * width
  {
    FlatLength(Split(s, width)[..i], width);
    hide Flat, Split;
  }

  /** Parts i..j of a split sequence are one stretch of it. */
  lemma SplitStretch(s: seq<byte>, width: nat, count: nat, i: nat, j: nat)
    requires width > 0 && |s| == count * width && i <= j <= count
    ensures |Split(s, width)| == count
    ensures 0 <= i * width <= j * width <= |s|
    ensures Flat(Split(s, width)[i..j]) == s[i * width..j * width]
  {
    hide *;
    SplitCounts(s, width, count);
    FlatOfSplit(s, width, count);
    var parts := Split(s, width);
    OffsetFits(i, j, width);
    OffsetFits(j, count, width);
    FlatAppend(parts[..i], parts[i..j]);
    FlatAppend(parts[..j], parts[j..]);
    Slices(parts, i, j);
    SplitSizes(s, width, i);
    SplitSizes(s, width, j);
    Middle(s, Flat(parts[..i]), Flat(parts[i..j]), Flat(parts[j..]), i * width, j * width);
  }

  /** n parts from part i on are one stretch of a split sequence. */
  lemma SplitPart(s: seq<byte>, width: nat, count: nat, i: nat, n: nat)
    requires width > 0 && |s| == count * width && i + n <= count
    ensures |Split(s, width)| == count
    ensures 0 <= i * width && i * width + n * width <= |s|
    ensures Flat(Split(s, width)[i..][..n]) == s[i * width..i * width + n * width]
  {
    hide *;
    SplitStretch(s, width, count, i, i + n);
    assert (i + n) * width == i * width + n * width;
    assert Split(s, width)[i..][..n] == Split(s, width)[i..i + n];
  }

  lemma Regroup<T>(a: seq<T>, b: seq<T>, c: seq<T>)
    ensures (a + b) + c == a + (b + c)
  {
  }
}
