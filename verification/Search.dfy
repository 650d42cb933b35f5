/** The chunked search for a compiled requirement in a broker image. */
module Search {
  import opened Bytes
  import Seqs

  const CHUNK := 65536

  ghost predicate IsAt(s: seq<byte>, needle: seq<byte>, i: nat) {
    i + |needle| <= |s| && s[i..i + |needle|] == needle
  }

  /** `needle in s`. */
  ghost predicate Contains(s: seq<byte>, needle: seq<byte>) {
    exists i: nat :: IsAt(s, needle, i)
  }

  function Concat(chunks: seq<seq<byte>>): seq<byte> {
    if chunks == [] then [] else Concat(chunks[..|chunks| - 1]) + chunks[|chunks| - 1]
  }

  /** The last `n` bytes, or all of them: Python's `s[-n:]` for positive `n`. */
  function Last(s: seq<byte>, n: nat): (t: seq<byte>)
    ensures |t| == Min(n, |s|)
  {
    s[|s| - Min(n, |s|)..]
  }

  method Find(s: seq<byte>, needle: seq<byte>) returns (found: bool)
    ensures found <==> Contains(s, needle)
  {
    var i := 0;
    while i + |needle| <= |s|
      invariant forall j: nat :: j < i ==> !IsAt(s, needle, j)
    {
      if s[i..i + |needle|] == needle {
        assert IsAt(s, needle, i);
        return true;
      }
      i := i + 1;
    }
    found := false;
  }

  /**
   * A match that is not already in what came before lies in the last bytes of it, as long as the needle, and the
   * new chunk: a longer overlap would find nothing more.
   */
  lemma {:induction false} OverlapSuffices(before: seq<byte>, chunk: seq<byte>, needle: seq<byte>)
    requires !Contains(before, needle)
    ensures Contains(before + chunk, needle) <==> Contains(Last(before, |needle|) + chunk, needle)
  {
    var all, tail := before + chunk, Last(before, |needle|) + chunk;
    var cut := |before| - Min(|needle|, |before|);
    Seqs.DropPart(before, chunk, cut);
    if Contains(all, needle) {
      var i: nat :| IsAt(all, needle, i);
      assert !IsAt(before, needle, i);
      if i + |needle| <= |before| { Seqs.SliceAppend(before, chunk, i, i + |needle|); }
      Seqs.SliceOfSlice(all, cut, i - cut, i - cut + |needle|);
      assert IsAt(tail, needle, i - cut);
    }
    if Contains(tail, needle) {
      var i: nat :| IsAt(tail, needle, i);
      Seqs.SliceOfSlice(all, cut, i, i + |needle|);
      assert IsAt(all, needle, cut + i);
    }
  }

  /** The new overlap is the end of everything read so far. */
  lemma {:induction false} OverlapMoves(before: seq<byte>, chunk: seq<byte>, n: nat)
    ensures Last(Last(before, n) + chunk, n) == Last(before + chunk, n)
  {}

  /** Finding it early is finding it in the whole. */
  lemma {:induction false} ContainsMore(s: seq<byte>, t: seq<byte>, needle: seq<byte>)
    requires Contains(s, needle)
    ensures Contains(s + t, needle)
  {
    var i: nat :| IsAt(s, needle, i);
    Seqs.SliceAppend(s, t, i, i + |needle|);
    assert IsAt(s + t, needle, i);
  }

  /**
   * The bytes the loop gets to see: reads of at most `CHUNK` and at most the size taken at the start, until an empty
   * one.
   */
  ghost predicate LegalReads(chunks: seq<seq<byte>>, size: nat) {
    forall k :: 0 <= k < |chunks| ==> 1 <= |chunks[k]| <= CHUNK && |Concat(chunks[..k + 1])| <= size
  }

  /**
   * The search loop of `verify_managed_git_binding`. However the reads are cut, it succeeds exactly when the needle
   * is a contiguous part of the bytes read.
   */
  method SearchStream(chunks: seq<seq<byte>>, size: nat, needle: seq<byte>) returns (found: bool)
    requires needle != [] && LegalReads(chunks, size)
    ensures found <==> Contains(Concat(chunks), needle)
  {
    var overlap := [];
    var remaining: int := size;
    var k := 0;
    assert chunks[..0] == [];
    while remaining > 0
      invariant 0 <= k <= |chunks| && remaining == size - |Concat(chunks[..k])|
      invariant overlap == Last(Concat(chunks[..k]), |needle|)
      invariant !Contains(Concat(chunks[..k]), needle)
      invariant forall j :: 0 <= j < |chunks| ==> chunks[j] != []
      decreases |chunks| - k
    {
      // The read returns nothing at the end of the file.
      if k == |chunks| { break; }
      var chunk := chunks[k];
      ghost var before := Concat(chunks[..k]);
      ConcatNext(chunks, k);
      OverlapSuffices(before, chunk, needle);
      remaining := remaining - |chunk|;
      found := Find(overlap + chunk, needle);
      if found {
        ConcatSplit(chunks, k + 1);
        ContainsMore(before + chunk, Concat(chunks[k + 1..]), needle);
        return;
      }
      OverlapMoves(before, chunk, |needle|);
      overlap := Last(overlap + chunk, |needle|);
      k := k + 1;
    }
    AllRead(chunks, size, k);
    found := false;
  }

  /** Once as many bytes are read as the file had, or nothing more comes, there are no more chunks. */
  lemma {:induction false} AllRead(chunks: seq<seq<byte>>, size: nat, k: nat)
    requires LegalReads(chunks, size) && k <= |chunks| && (k == |chunks| || |Concat(chunks[..k])| == size)
    ensures chunks[..k] == chunks
  {
    if k < |chunks| { ConcatNext(chunks, k); }
  }

  lemma {:induction false} ConcatNext(chunks: seq<seq<byte>>, k: nat)
    requires k < |chunks|
    ensures Concat(chunks[..k + 1]) == Concat(chunks[..k]) + chunks[k]
  {
    assert chunks[..k + 1][..k] == chunks[..k];
  }

  lemma {:induction false} ConcatSplit(chunks: seq<seq<byte>>, k: nat)
    requires k <= |chunks|
    ensures Concat(chunks) == Concat(chunks[..k]) + Concat(chunks[k..])
    decreases |chunks|
  {
    if k == |chunks| {
      assert chunks[..k] == chunks && chunks[k..] == [];
    } else {
      var front := chunks[..|chunks| - 1];
      ConcatSplit(front, k);
      assert front[..k] == chunks[..k] && front[k..] == chunks[k..][..|chunks| - k - 1];
    }
  }
}
