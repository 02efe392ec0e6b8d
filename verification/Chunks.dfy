/** The client's chunk arithmetic. */
module Chunks {
  import opened Common

  const CHUNK_SIZE := 8 * 1024

  /** Math.ceil(length / CHUNK_SIZE). */
  function ChunkCount(length: nat): nat {
    (length + CHUNK_SIZE - 1) / CHUNK_SIZE
  }

  function Min(a: int, b: int): int {
    if a < b then a else b
  }

  /** fileBuffer.subarray(start, end) for one chunk id. */
  function Slice(content: Bytes, c: nat): (s: Bytes)
    requires c < ChunkCount(|content|)
    ensures 1 <= |s| <= CHUNK_SIZE
  {
    content[c * CHUNK_SIZE..Min(c * CHUNK_SIZE + CHUNK_SIZE, |content|)]
  }

  function Slices(content: Bytes, ids: seq<int>): seq<Bytes>
    requires forall i :: 0 <= i < |ids| ==> 0 <= ids[i] < ChunkCount(|content|)
  {
    seq(|ids|, i requires 0 <= i < |ids| => Slice(content, ids[i]))
  }

  function AllIds(n: nat): seq<int> {
    seq(n, i => i)
  }

  /** The number of chunks of a file, in bytes and not in terms of the constant. */
  lemma ChunkCountIs(length: nat)
    ensures length == 0 ==> ChunkCount(length) == 0
    ensures length > 0 ==> 8192 * (ChunkCount(length) - 1) < length <= 8192 * ChunkCount(length)
  {
  }

  /** Every chunk but the last has exactly 8192 bytes, the last has the rest, and each starts where it should. */
  lemma SliceIs(content: Bytes, c: nat)
    requires c < ChunkCount(|content|)
    ensures 8192 * c < |content|
    ensures |Slice(content, c)| == if c + 1 < ChunkCount(|content|) then 8192 else |content| - 8192 * c
    ensures |Slice(content, c)| <= 8192
    ensures Slice(content, c) == content[8192 * c..8192 * c + |Slice(content, c)|]
  {
    ChunkCountIs(|content|);
  }

  lemma NextSlice(content: Bytes, k: nat)
    requires k < ChunkCount(|content|)
    ensures content[..Min(k * CHUNK_SIZE, |content|)] + Slice(content, k)
         == content[..Min((k + 1) * CHUNK_SIZE, |content|)]
  {
  }

  /** The first k slices are the first k * 8192 bytes, or the whole content when it is shorter. */
  lemma {:induction false} SlicesCoverPrefix(content: Bytes, k: nat)
    requires k <= ChunkCount(|content|)
    ensures Concat(Slices(content, AllIds(k))) == content[..Min(k * CHUNK_SIZE, |content|)]
  {
    hide Slice;
    var parts := Slices(content, AllIds(k));
    if k > 0 {
      SlicesCoverPrefix(content, k - 1);
      NextSlice(content, k - 1);
      assert parts[..k - 1] == Slices(content, AllIds(k - 1));
    }
  }

  /** The slices partition the file: put together in order they are the file. */
  lemma SlicesPartition(content: Bytes)
    ensures Concat(Slices(content, AllIds(ChunkCount(|content|)))) == content
  {
    SlicesCoverPrefix(content, ChunkCount(|content|));
    assert content[..|content|] == content;
  }

  // Which lists give the whole file back

  /** The number of bytes in the first k slices. */
  function PrefixLength(content: Bytes, k: nat): nat {
    Min(k * CHUNK_SIZE, |content|)
  }

  lemma PrefixesGrow(content: Bytes, k: nat)
    requires k < ChunkCount(|content|)
    ensures PrefixLength(content, k + 1) == PrefixLength(content, k) + |Slice(content, k)|
    ensures |Slice(content, k)| >= 1
  {
  }

  lemma OneMoreSlice(content: Bytes, init: seq<int>, c: nat)
    requires c < ChunkCount(|content|) && forall i :: 0 <= i < |init| ==> 0 <= init[i] < ChunkCount(|content|)
    ensures |Concat(Slices(content, init + [c]))| == |Concat(Slices(content, init))| + |Slice(content, c)|
  {
    var parts := Slices(content, init + [c]);
    assert parts[..|init|] == Slices(content, init);
  }

  /** A list that misses an id below k yields fewer bytes than the file has up to there. */
  lemma {:induction false} MissingSliceShortens(content: Bytes, ids: seq<int>, k: nat)
    requires k <= ChunkCount(|content|) && StrictlyIncreasing(ids)
    requires forall i :: 0 <= i < |ids| ==> 0 <= ids[i] < k
    ensures |Concat(Slices(content, ids))| <= PrefixLength(content, k)
    ensures (exists c :: 0 <= c < k && c !in ids) ==> |Concat(Slices(content, ids))| < PrefixLength(content, k)
  {
    hide Slice, Slices, Concat, PrefixLength, ChunkCount;
    if k == 0 {
      assert ids == [];
      NoSlices(content);
    } else {
      PrefixesGrow(content, k - 1);
      if ids != [] && ids[|ids| - 1] == k - 1 {
        var init := ids[..|ids| - 1];
        assert ids == init + [k - 1];
        MissingSliceShortens(content, init, k - 1);
        OneMoreSlice(content, init, k - 1);
      } else {
        MissingSliceShortens(content, ids, k - 1);
      }
    }
  }

  lemma NoSlices(content: Bytes)
    ensures Concat(Slices(content, [])) == []
  {
  }

  lemma WholeFileIff(content: Bytes, ids: seq<int>)
    requires StrictlyIncreasing(ids) && forall i :: 0 <= i < |ids| ==> 0 <= ids[i] < ChunkCount(|content|)
    ensures Concat(Slices(content, ids)) == content <==> forall c :: 0 <= c < ChunkCount(|content|) ==> c in ids
  {
    var n := ChunkCount(|content|);
    if forall c :: 0 <= c < n ==> c in ids {
      forall c ensures c in Elements(ids) <==> c in Elements(AllIds(n)) {
        if 0 <= c < n {
          assert AllIds(n)[c] == c;
        }
      }
      IncreasingUnique(ids, AllIds(n));
      SlicesPartition(content);
    } else {
      MissingSliceShortens(content, ids, n);
    }
  }

  /** Parts that may be cut yield at most the file, and exactly the file only if none is cut and no id is missing. */
  lemma CutPartsIff(content: Bytes, ids: seq<int>, parts: seq<Bytes>)
    requires |parts| == |ids| && StrictlyIncreasing(ids)
    requires forall i :: 0 <= i < |ids| ==> 0 <= ids[i] < ChunkCount(|content|) && parts[i] <= Slice(content, ids[i])
    ensures Concat(parts) == content <==>
      parts == Slices(content, ids) && forall c :: 0 <= c < ChunkCount(|content|) ==> c in ids
    ensures Concat(parts) != content ==> |Concat(parts)| < |content|
  {
    MissingSliceShortens(content, ids, ChunkCount(|content|));
    WholeFileIff(content, ids);
    CutPartsShorten(parts, Slices(content, ids));
    hide Slice, Slices, Concat, ChunkCount;
    assert PrefixLength(content, ChunkCount(|content|)) == |content| by {
      AllOfIt(content);
    }
  }

  lemma AllOfIt(content: Bytes)
    ensures PrefixLength(content, ChunkCount(|content|)) == |content|
  {
  }

  lemma LastPart(parts: seq<Bytes>)
    requires parts != []
    ensures |Concat(parts)| == |Concat(parts[..|parts| - 1])| + |parts[|parts| - 1]|
  {
  }

  lemma ProperPrefixIsShorter(a: Bytes, b: Bytes)
    requires a <= b
    ensures |a| <= |b| && (a != b ==> |a| < |b|)
  {
  }

  /** The larger list has at least as many bytes, and more unless the lists are equal. */
  lemma {:induction false} CutPartsShorten(parts: seq<Bytes>, whole: seq<Bytes>)
    requires |parts| == |whole| && forall i :: 0 <= i < |parts| ==> parts[i] <= whole[i]
    ensures |Concat(parts)| <= |Concat(whole)|
    ensures parts != whole ==> |Concat(parts)| < |Concat(whole)|
  {
    hide Concat;
    if parts != [] {
      var k := |parts| - 1;
      CutPartsShorten(parts[..k], whole[..k]);
      LastPart(parts);
      LastPart(whole);
      ProperPrefixIsShorter(parts[k], whole[k]);
      assert parts == parts[..k] + [parts[k]] && whole == whole[..k] + [whole[k]];
    }
  }
}
