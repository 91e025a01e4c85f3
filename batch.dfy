/**
  The two batch runners and the comparison of their totals.

  The sequential runner fetches the image numbers one at a time in input
  order and adds each reported byte count to a running total. The
  parallel runner submits one fetch per image number to a thread pool and
  adds the reported counts in the order the fetches complete; that order
  is modelled as an arbitrary permutation `completed` of the submitted
  list. A failed fetch reports no count, and adding "no count" to the
  total raises, so a run with any failed fetch yields no total (None).
 */
module Batch {
  import opened Naming
  import opened Fetcher

  // ---------------------------------------------------------------------
  // Specification functions
  // ---------------------------------------------------------------------

  predicate AllFetched(remote: Remote, ids: seq<int>) {
    forall n :: n in ids ==> Fetched(remote, n)
  }

  /** The intended batch total: the sum of the byte counts of the fetches
      that succeed; a failed fetch contributes zero. */
  function TotalBytes(remote: Remote, ids: seq<int>): nat {
    if ids == [] then 0
    else TotalBytes(remote, ids[..|ids| - 1]) + SizeOf(remote, ids[|ids| - 1]).GetOr(0)
  }

  /** `total_bytes += size` where `size` may be missing: adding a missing
      count raises, and a raised run has no total. */
  function AddSize(total: Option<nat>, size: Option<nat>): Option<nat> {
    if total.Some? && size.Some? then Some(total.value + size.value) else None
  }

  /** The total the runners' accumulation loop produces, folding `AddSize`
      over the per-item counts in the given order from `Some(0)`. */
  function SumAsWritten(remote: Remote, ids: seq<int>): (total: Option<nat>)
    ensures total.Some? <==> AllFetched(remote, ids)
  {
    if ids == [] then Some(0)
    else
      AllFetchedLast(remote, ids);
      AddSize(SumAsWritten(remote, ids[..|ids| - 1]), SizeOf(remote, ids[|ids| - 1]))
  }

  /** The files after fetching every image number of `ids`, in that order. */
  function StoreAll(files: map<string, Bytes>, remote: Remote, ids: seq<int>): (r: map<string, Bytes>)
    ensures files.Keys <= r.Keys <= files.Keys + FilesOf(ids)
  {
    if ids == [] then files
    else StoreOne(StoreAll(files, remote, ids[..|ids| - 1]), remote, ids[|ids| - 1])
  }

  /** The save paths a batch may write. */
  function FilesOf(ids: seq<int>): set<string> {
    set n | n in ids :: FileOf(n)
  }

  /** The save paths a batch does write: those of its successful fetches. */
  function FetchedFilesOf(remote: Remote, ids: seq<int>): set<string> {
    set n | n in ids && Fetched(remote, n) :: FileOf(n)
  }

  /** The position of the first failed fetch, or |ids| when every fetch succeeds. */
  function FirstFailure(remote: Remote, ids: seq<int>): (k: nat)
    ensures k <= |ids| && AllFetched(remote, ids[..k])
    ensures k < |ids| ==> !Fetched(remote, ids[k])
  {
    if ids == [] || !Fetched(remote, ids[0]) then 0
    else
      var k := 1 + FirstFailure(remote, ids[1..]);
      assert ids[..k] == [ids[0]] + ids[1..][..k - 1];
      k
  }

  // ---------------------------------------------------------------------
  // The runners
  // ---------------------------------------------------------------------

  /** `seq_download_images`: fetches in input order; the first failed fetch
      ends the run with no total, after the files fetched before it were written. */
  method SeqDownloadImages(remote: Remote, imageNumbers: seq<int>, dir: Directory) returns (total: Option<nat>)
    modifies dir
    ensures total == SumAsWritten(remote, imageNumbers)
    ensures dir.files == StoreAll(old(dir.files), remote, imageNumbers[..FirstFailure(remote, imageNumbers)])
  {
    var totalBytes: nat := 0;
    var i := 0;
    while i < |imageNumbers|
      invariant 0 <= i <= |imageNumbers|
      invariant AllFetched(remote, imageNumbers[..i])
      invariant totalBytes == TotalBytes(remote, imageNumbers[..i])
      invariant dir.files == StoreAll(old(dir.files), remote, imageNumbers[..i])
    {
      var done := imageNumbers[..i + 1];
      assert done[..i] == imageNumbers[..i] && done[i] == imageNumbers[i];
      var size := DownloadImage(remote, imageNumbers[i], dir);
      assert size.Some? <==> Fetched(remote, imageNumbers[i]);
      if size.None? {
        // `total_bytes += None` raises
        FirstFailureAt(remote, imageNumbers, i);
        FailedImageAbortsBatch(remote, imageNumbers, i);
        return None;
      }
      AllFetchedLast(remote, done);
      totalBytes := totalBytes + size.value;
      i := i + 1;
    }
    assert imageNumbers[..i] == imageNumbers;
    FirstFailureAt(remote, imageNumbers, i);
    SumAsWrittenMeaning(remote, imageNumbers);
    total := Some(totalBytes);
  }

  /** `par_download_images`: every submitted fetch runs to completion (the
      pool waits for all of them before the run ends, even once the total
      has raised), and the counts are added in completion order. */
  method ParDownloadImages(remote: Remote, imageNumbers: seq<int>, completed: seq<int>, dir: Directory)
    returns (total: Option<nat>)
    requires multiset(completed) == multiset(imageNumbers)
    modifies dir
    ensures total == SumAsWritten(remote, imageNumbers)
    ensures dir.files == StoreAll(old(dir.files), remote, imageNumbers)
  {
    var totalBytes: Option<nat> := Some(0);
    var k := 0;
    while k < |completed|
      invariant 0 <= k <= |completed|
      invariant totalBytes == SumAsWritten(remote, completed[..k])
      invariant dir.files == StoreAll(old(dir.files), remote, completed[..k])
    {
      assert completed[..k + 1][..k] == completed[..k];
      var size := DownloadImage(remote, completed[k], dir);
      totalBytes := AddSize(totalBytes, size);
      k := k + 1;
    }
    assert completed[..k] == completed;
    ParallelMatchesSequential(remote, imageNumbers, completed);
    StoreAllPermutation(old(dir.files), remote, imageNumbers, completed);
    total := totalBytes;
  }

  /** How the evaluation ends: an exception from a run, the mismatch
      exception of the comparison, or the report of the common total. */
  datatype Report = Raised | Mismatch | Matched(total: nat)

  /** The evaluation: a sequential run, then a parallel run into the same
      directory, then the check that both totals agree. */
  method Evaluate(remote: Remote, completed: seq<int>, dir: Directory) returns (report: Report)
    requires multiset(completed) == multiset(ImageNumbers)
    modifies dir
    ensures report != Mismatch
    ensures report == if AllFetched(remote, ImageNumbers)
                      then Matched(TotalBytes(remote, ImageNumbers)) else Raised
    ensures dir.files == StoreAll(old(dir.files), remote, ImageNumbers[..FirstFailure(remote, ImageNumbers)])
  {
    SumAsWrittenMeaning(remote, ImageNumbers);
    var sequentialResult := SeqDownloadImages(remote, ImageNumbers, dir);
    if sequentialResult.None? {
      report := Raised;
      return;
    }
    // every fetch succeeded, so the sequential pass wrote the whole batch
    assert ImageNumbers[..|ImageNumbers|] == ImageNumbers;
    FirstFailureAt(remote, ImageNumbers, |ImageNumbers|);
    StoreAllIdempotent(old(dir.files), remote, ImageNumbers);
    var parallelResult := ParDownloadImages(remote, ImageNumbers, completed, dir);
    report := if parallelResult.None? then Raised
              else if sequentialResult != parallelResult then Mismatch
              else Matched(parallelResult.value);
  }

  // ---------------------------------------------------------------------
  // The totals
  // ---------------------------------------------------------------------

  lemma {:induction false} TotalBytesAppend(remote: Remote, s: seq<int>, t: seq<int>)
    ensures TotalBytes(remote, s + t) == TotalBytes(remote, s) + TotalBytes(remote, t)
  {
    if t == [] {
      assert s + t == s;
    } else {
      var t' := t[..|t| - 1];
      assert (s + t)[..|s + t| - 1] == s + t';
      TotalBytesAppend(remote, s, t');
    }
  }

  /** A failed fetch anywhere in the batch leaves the intended total as if
      the image were not in the batch; a successful one adds its byte count. */
  lemma FailuresContributeZero(remote: Remote, s: seq<int>, n: int, t: seq<int>)
    ensures !Fetched(remote, n) ==> TotalBytes(remote, s + [n] + t) == TotalBytes(remote, s + t)
    ensures Fetched(remote, n) ==>
      TotalBytes(remote, s + [n] + t) == TotalBytes(remote, s + t) + |Retrieve(remote, n).value|
  {
    TotalBytesAppend(remote, s + [n], t);
    TotalBytesAppend(remote, s, [n]);
    TotalBytesAppend(remote, s, t);
    assert [n][..0] == [];
  }

  /** The accumulation loop yields the intended total exactly when every
      fetch succeeds, and no total otherwise. */
  lemma {:induction false} SumAsWrittenMeaning(remote: Remote, ids: seq<int>)
    ensures SumAsWritten(remote, ids)
         == if AllFetched(remote, ids) then Some(TotalBytes(remote, ids)) else None
  {
    SumAsWrittenValue(remote, ids);
  }

  /** When the accumulation loop yields a total, it is the intended one. */
  lemma {:induction false} SumAsWrittenValue(remote: Remote, ids: seq<int>)
    ensures SumAsWritten(remote, ids).Some? ==> SumAsWritten(remote, ids).value == TotalBytes(remote, ids)
  {
    if ids != [] {
      SumAsWrittenValue(remote, ids[..|ids| - 1]);
    }
  }

  /** Every fetch of a batch succeeds exactly when every fetch but the last
      does and the last one does too. */
  lemma AllFetchedLast(remote: Remote, ids: seq<int>)
    requires ids != []
    ensures AllFetched(remote, ids) <==>
      AllFetched(remote, ids[..|ids| - 1]) && Fetched(remote, ids[|ids| - 1])
  {
    assert ids == ids[..|ids| - 1] + [ids[|ids| - 1]];
  }

  /** As written, one failed fetch at any position leaves the batch without a total. */
  lemma FailedImageAbortsBatch(remote: Remote, ids: seq<int>, i: nat)
    requires i < |ids| && !Fetched(remote, ids[i])
    ensures SumAsWritten(remote, ids) == None
  {
    SumAsWrittenMeaning(remote, ids);
  }

  /** A catalog whose every retrieval fails. */
  function Unreachable(): Remote {
    _ => OtherError
  }

  /** One unreachable image: the runners raise where the intended total is 0. */
  lemma UnreachableImageExample()
    ensures SumAsWritten(Unreachable(), [0]) == None
    ensures TotalBytes(Unreachable(), [0]) == 0
  {
    assert [0][..0] == [];
  }

  /** Finds the last element of `a` in `b` and splits both around it. */
  lemma SplitAtLast(a: seq<int>, b: seq<int>) returns (j: nat)
    requires a != [] && multiset(a) == multiset(b)
    ensures j < |b| && b[j] == a[|a| - 1]
    ensures b == b[..j] + [b[j]] + b[j + 1..]
    ensures a == a[..|a| - 1] + [a[|a| - 1]]
    ensures multiset(a[..|a| - 1]) == multiset(b[..j] + b[j + 1..])
  {
    var x := a[|a| - 1];
    assert a == a[..|a| - 1] + [x];
    assert x in multiset(b);
    j :| 0 <= j < |b| && b[j] == x;
    assert b == b[..j] + [x] + b[j + 1..];
    assert multiset(b) == multiset(b[..j] + b[j + 1..]) + multiset{x};
    assert multiset(a) == multiset(a[..|a| - 1]) + multiset{x};
    assert multiset(a[..|a| - 1]) == multiset(a) - multiset{x};
    assert multiset(b[..j] + b[j + 1..]) == multiset(b) - multiset{x};
  }

  lemma {:induction false} TotalBytesPermutation(remote: Remote, a: seq<int>, b: seq<int>)
    requires multiset(a) == multiset(b)
    ensures TotalBytes(remote, a) == TotalBytes(remote, b)
  {
    if a != [] {
      var j := SplitAtLast(a, b);
      var x, a', b1, b2 := a[|a| - 1], a[..|a| - 1], b[..j], b[j + 1..];
      TotalBytesPermutation(remote, a', b1 + b2);
      FailuresContributeZero(remote, b1, x, b2);
      FailuresContributeZero(remote, a', x, []);
      assert a' + [x] + [] == a;
      assert a' + [] == a';
    } else {
      assert |b| == |multiset(b)| == 0;
    }
  }

  lemma AllFetchedPermutation(remote: Remote, a: seq<int>, b: seq<int>)
    requires multiset(a) == multiset(b)
    ensures AllFetched(remote, a) <==> AllFetched(remote, b)
  {
    assert forall n :: n in a <==> n in multiset(b);
  }

  /** The invariant the evaluation checks before reporting: folding the same
      per-item counts in any completion order gives the sequential result. */
  lemma ParallelMatchesSequential(remote: Remote, imageNumbers: seq<int>, completed: seq<int>)
    requires multiset(completed) == multiset(imageNumbers)
    ensures SumAsWritten(remote, completed) == SumAsWritten(remote, imageNumbers)
    ensures TotalBytes(remote, completed) == TotalBytes(remote, imageNumbers)
  {
    SumAsWrittenMeaning(remote, completed);
    SumAsWrittenMeaning(remote, imageNumbers);
    TotalBytesPermutation(remote, completed, imageNumbers);
    AllFetchedPermutation(remote, completed, imageNumbers);
  }

  /** A catalog serving bodies of 100, 200 and 300 bytes for images 1, 2 and 3. */
  predicate ServesThreeImages(remote: Remote) {
    && remote(Url(1)).Body? && |remote(Url(1)).data| == 100
    && remote(Url(2)).Body? && |remote(Url(2)).data| == 200
    && remote(Url(3)).Body? && |remote(Url(3)).data| == 300
  }

  /** Images 0, 1 and 2 are the catalog's images 1, 2 and 3; with bodies of
      100, 200 and 300 bytes both runners report 600. */
  lemma ThreeImageExample(remote: Remote, completed: seq<int>)
    requires ServesThreeImages(remote)
    requires multiset(completed) == multiset([0, 1, 2])
    ensures NormalizeAll([0, 1, 2]) == [1, 2, 3]
    ensures SumAsWritten(remote, [0, 1, 2]) == Some(600)
    ensures SumAsWritten(remote, completed) == Some(600)
  {
    ThreeImageIds();
    ThreeImagesInOrder(remote);
    ParallelMatchesSequential(remote, [0, 1, 2], completed);
  }

  lemma ThreeImageIds()
    ensures NormalizeAll([0, 1, 2]) == [1, 2, 3]
  {
    assert NormalizeAll([0, 1, 2])[0] == 1;
    assert NormalizeAll([0, 1, 2])[1] == 2;
    assert NormalizeAll([0, 1, 2])[2] == 3;
  }

  lemma ThreeImagesInOrder(remote: Remote)
    requires ServesThreeImages(remote)
    ensures SumAsWritten(remote, [0, 1, 2]) == Some(600)
  {
    var ids := [0, 1, 2];
    ThreeImageSizes(remote);
    assert ids[..2] == [0, 1] && [0, 1][..1] == [0] && [0][..0] == [];
    assert SumAsWritten(remote, [0]) == Some(100);
    assert SumAsWritten(remote, [0, 1]) == Some(300);
  }

  lemma ThreeImageSizes(remote: Remote)
    requires ServesThreeImages(remote)
    ensures SizeOf(remote, 0) == Some(100)
    ensures SizeOf(remote, 1) == Some(200)
    ensures SizeOf(remote, 2) == Some(300)
  {
    assert Normalize(0) == 1 && Normalize(1) == 2 && Normalize(2) == 3;
  }

  // ---------------------------------------------------------------------
  // The files
  // ---------------------------------------------------------------------

  lemma FirstFailureAt(remote: Remote, ids: seq<int>, i: nat)
    requires i <= |ids| && AllFetched(remote, ids[..i])
    requires i < |ids| ==> !Fetched(remote, ids[i])
    ensures FirstFailure(remote, ids) == i
  {
    var k := FirstFailure(remote, ids);
  }

  lemma {:induction false} StoreAllAppend(files: map<string, Bytes>, remote: Remote, s: seq<int>, t: seq<int>)
    ensures StoreAll(files, remote, s + t) == StoreAll(StoreAll(files, remote, s), remote, t)
  {
    if t == [] {
      assert s + t == s;
    } else {
      var t' := t[..|t| - 1];
      assert (s + t)[..|s + t| - 1] == s + t';
      StoreAllAppend(files, remote, s, t');
    }
  }

  /** What a batch of fetches leaves: a path that no successful fetch of the
      batch writes (the save path of a failed image among them) keeps its
      contents, and the file of every successful fetch holds the bytes it read
      (later fetches of the same image read the same bytes). */
  lemma {:induction false} StoreAllContents(files: map<string, Bytes>, remote: Remote, ids: seq<int>)
    ensures forall p :: p !in FetchedFilesOf(remote, ids) ==>
      (p in StoreAll(files, remote, ids) <==> p in files) &&
      (p in StoreAll(files, remote, ids) ==> StoreAll(files, remote, ids)[p] == files[p])
    ensures forall n :: n in ids && Fetched(remote, n) ==>
      FileOf(n) in StoreAll(files, remote, ids) &&
      StoreAll(files, remote, ids)[FileOf(n)] == Retrieve(remote, n).value
  {
    if ids != [] {
      var init, x := ids[..|ids| - 1], ids[|ids| - 1];
      StoreAllContents(files, remote, init);
      assert ids == init + [x];
      if Fetched(remote, x) {
        assert FetchedFilesOf(remote, ids) == FetchedFilesOf(remote, init) + {FileOf(x)};
      } else {
        assert FetchedFilesOf(remote, ids) == FetchedFilesOf(remote, init);
      }
      forall n | n in ids && Fetched(remote, n)
        ensures FileOf(n) in StoreAll(files, remote, ids)
        ensures StoreAll(files, remote, ids)[FileOf(n)] == Retrieve(remote, n).value
      {
        SameFileSameImage(remote, n, x);
      }
    }
  }

  /** Running a whole batch again against the same catalog changes nothing. */
  lemma StoreAllIdempotent(files: map<string, Bytes>, remote: Remote, ids: seq<int>)
    ensures StoreAll(StoreAll(files, remote, ids), remote, ids) == StoreAll(files, remote, ids)
  {
    var once := StoreAll(files, remote, ids);
    var twice := StoreAll(once, remote, ids);
    forall p
      ensures (p in twice <==> p in once) && (p in once ==> twice[p] == once[p])
    {
      StoreAllAgainAt(files, remote, ids, p);
    }
    assert twice.Keys == once.Keys;
  }

  lemma StoreAllAgainAt(files: map<string, Bytes>, remote: Remote, ids: seq<int>, p: string)
    ensures var once := StoreAll(files, remote, ids);
            var twice := StoreAll(once, remote, ids);
            (p in twice <==> p in once) && (p in once ==> twice[p] == once[p])
  {
    var once := StoreAll(files, remote, ids);
    StoreAllContents(files, remote, ids);
    StoreAllContents(once, remote, ids);
    if p in FetchedFilesOf(remote, ids) {
      var n :| n in ids && Fetched(remote, n) && p == FileOf(n);
    }
  }

  /** A fetch done first may instead be done last. */
  lemma {:induction false} FetchMovesToEnd(files: map<string, Bytes>, remote: Remote, x: int, t: seq<int>)
    ensures StoreAll(StoreOne(files, remote, x), remote, t) == StoreOne(StoreAll(files, remote, t), remote, x)
  {
    if t != [] {
      var t', y := t[..|t| - 1], t[|t| - 1];
      FetchMovesToEnd(files, remote, x, t');
      FetchesCommute(StoreAll(files, remote, t'), remote, x, y);
    }
  }

  /** Against a fixed catalog the files left by a batch do not depend on the
      order of its fetches, so the parallel writes end as the sequential ones do. */
  lemma {:induction false} StoreAllPermutation(files: map<string, Bytes>, remote: Remote, a: seq<int>, b: seq<int>)
    requires multiset(a) == multiset(b)
    ensures StoreAll(files, remote, a) == StoreAll(files, remote, b)
  {
    if a != [] {
      var j := SplitAtLast(a, b);
      var x, a', b1, b2 := a[|a| - 1], a[..|a| - 1], b[..j], b[j + 1..];
      assert b == (b1 + [x]) + b2;
      StoreAllPermutation(files, remote, a', b1 + b2);
      calc {
        StoreAll(files, remote, b);
        { StoreAllAppend(files, remote, b1 + [x], b2); }
        StoreAll(StoreAll(files, remote, b1 + [x]), remote, b2);
        { assert (b1 + [x])[..|b1|] == b1; }
        StoreAll(StoreOne(StoreAll(files, remote, b1), remote, x), remote, b2);
        { FetchMovesToEnd(StoreAll(files, remote, b1), remote, x, b2); }
        StoreOne(StoreAll(StoreAll(files, remote, b1), remote, b2), remote, x);
        { StoreAllAppend(files, remote, b1, b2); }
        StoreOne(StoreAll(files, remote, b1 + b2), remote, x);
        StoreOne(StoreAll(files, remote, a'), remote, x);
        StoreAll(files, remote, a);
      }
    } else {
      assert |b| == |multiset(b)| == 0;
    }
  }

  /** Distinct catalog ids in a batch write distinct files, so concurrent
      fetches of such a batch never write the same file; the evaluation
      batch is such a batch. */
  lemma DistinctIdsWriteDistinctFiles(ids: seq<int>)
    requires forall i, j :: 0 <= i < j < |ids| ==> Normalize(ids[i]) != Normalize(ids[j])
    ensures forall i, j :: 0 <= i < j < |ids| ==> FileOf(ids[i]) != FileOf(ids[j])
  {
    forall i, j | 0 <= i < j < |ids|
      ensures FileOf(ids[i]) != FileOf(ids[j])
    {
      NamesDetermineId(Normalize(ids[i]), Normalize(ids[j]));
    }
  }

  lemma EvaluationBatchWritesDistinctFiles()
    ensures forall i, j :: 0 <= i < j < |ImageNumbers| ==> FileOf(ImageNumbers[i]) != FileOf(ImageNumbers[j])
  {
    EvaluationBatchCoversCatalog();
    DistinctIdsWriteDistinctFiles(ImageNumbers);
  }
}
