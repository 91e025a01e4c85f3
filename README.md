# Image downloader: a Dafny model of its core

The program downloads the 50 images of a remote catalog with two
strategies, one image at a time and on a thread pool. It runs each
strategy twice: once for its result and once timed. Every run writes each
image to a local directory and adds up the bytes received. The program
then checks that the two results agree, and prints the timings.

The model covers the deterministic core under the I/O:

- `naming.dfy` (module `Naming`). Maps any image number onto a catalog
  id with `abs(n) % 50 + 1`. Renders the id as `{:03d}` inside
  `image???.jpg`, and reads it back with `Parse`. Builds the resource
  address and the save path each from its own format string, and proves
  that both are a fixed prefix followed by that one file name.
- `fetcher.dfy` (module `Fetcher`). The remote catalog is an oracle, a
  total function from address to `Response`: the body, an HTTP error or
  any other failure. The local file system is a `Directory` object whose
  `files` map goes from path to bytes. `DownloadImage` is the
  fetch-and-store step. It is specified by `SizeOf` (the count it
  reports) and `StoreOne` (the files it leaves).
- `batch.dfy` (module `Batch`). The two runners are loops over the image
  numbers that update the directory. The parallel runner's completion
  order is a sequence `completed` with the same multiset as the submitted
  list. `Evaluate` is the comparison the main block makes.

How failures are encoded. The model follows the code as written. A failed
fetch yields no byte count. The runners' `total_bytes += ...` then
raises, so a batch with any failed fetch has no total: `SumAsWritten` is
`None`. The sequential runner stops at the first failure, and the files
fetched before it have already been written. The parallel runner's pool
waits for every submitted fetch before the exception leaves the `with`
block, so all successful fetches are written. Separately, `TotalBytes` is
the intended total, in which a failure contributes zero.
`SumAsWrittenMeaning` shows that the code's total equals
`Some(TotalBytes(...))` exactly when every fetch succeeds.

Negative numbers are normalised by their absolute value:
`abs(-1) % 50 + 1 == 2`, so -1 names image 2, not image 1.
`NormalizeValues` states it.

The handlers at `Descarga_de_imagenes.py:28-31` catch the failure and
print it rather than re-raise it. That shows failures were meant to be
absorbed, with a failed image adding nothing to the total. The code does
not achieve this (see Findings).

## Model

| member | source | states |
|---|---|---|
| `Naming.Normalize` | Descarga_de_imagenes.py:17 | every integer, of any sign or size, is mapped into the catalog range 1..50 |
| `Naming.NormalizeValues` | Descarga_de_imagenes.py:17 | 0 maps to 1, 49 to 50, 50 to 1 and -1 to 2 |
| `Naming.NormalizeIgnoresSign` | Descarga_de_imagenes.py:17 | `n` and `-n` name the same image |
| `Naming.NormalizePeriodic` | Descarga_de_imagenes.py:17 | non-negative numbers that differ by a multiple of 50 name the same image |
| `Naming.EvaluationBatchCoversCatalog` | Descarga_de_imagenes.py:44 | the evaluation batch `range(0, 50)` maps number `i` to id `i + 1`, no two numbers share an id, and every id 1..50 is named |
| `Naming.Decimal` | Descarga_de_imagenes.py:18 | the decimal rendering is a non-empty string of digits whose length is 1, 2, 3 or more according to the size of the number |
| `Naming.Format03d` | Descarga_de_imagenes.py:18 | `{:03d}` yields only digits, at least three of them, and exactly three precisely when the number is below 1000 |
| `Naming.Format03dRoundTrip` | Descarga_de_imagenes.py:18 | the padded rendering reads back as the number rendered |
| `Naming.CatalogIdRendering` | Descarga_de_imagenes.py:18 | every catalog id renders as exactly three digits that read back as that id |
| `Naming.ImageName` | Descarga_de_imagenes.py:18 | the file name starts with `image`, ends with `.jpg` and has at least three characters between them |
| `Naming.ImageNameRoundTrip` | Descarga_de_imagenes.py:18 | the id can be recovered from `image{id:03d}.jpg` |
| `Naming.Url` | Descarga_de_imagenes.py:18 | the address is longer than the host prefix, and what follows the prefix has the `image…jpg` shape: the `image` prefix, at least one character, and the `.jpg` suffix |
| `Naming.SavePath` | Descarga_de_imagenes.py:23 | the save path is longer than the directory prefix, and what follows the prefix has the `image…jpg` shape |
| `Naming.UrlAndSavePathShareName` | Descarga_de_imagenes.py:18-23 | each of the two format strings, filled with an id, equals its prefix constant (host or directory) followed by the file name `image{id:03d}.jpg` |
| `Naming.UrlAndSavePathEndInName` | Descarga_de_imagenes.py:18-23 | the address starts with the host prefix and the save path with the directory prefix, and what follows either prefix is exactly the image's file name |
| `Naming.NamesDetermineId` | Descarga_de_imagenes.py:18-23 | two ids have equal file names, equal addresses or equal save paths if and only if they are the same id |
| `Fetcher.Retrieve` | Descarga_de_imagenes.py:20-21 | reads the catalog at the normalised id's address: the body on success, nothing on an HTTP error or any other failure (lines 28-31); it carries no contract of its own, and `SameFileSameImage` (numbers with one file read one resource) and `StoreOne` (what is read is what is stored) state what it means |
| `Fetcher.FileOf` | Descarga_de_imagenes.py:23 | the file a fetch writes is the directory prefix followed by an `image…jpg` name whose middle reads back as the normalised id |
| `Fetcher.SizeOf` | Descarga_de_imagenes.py:22-31 | the count a fetch reports; the generic handler (lines 30-31) falls off the end with `None`, while the HTTP handler raises at line 29, and the model gives both no count (see Left out); it carries no contract of its own, and `ReportedSizeIsStoredSize` states what it means |
| `Fetcher.Directory.Write` | Descarga_de_imagenes.py:24-25 | writing a file replaces its whole contents with the data and leaves every other file unchanged |
| `Fetcher.StoreOne` | Descarga_de_imagenes.py:20-26 | a successful fetch puts exactly the bytes read at the image's save path and leaves every other path as it was; a failed fetch leaves the files unchanged |
| `Fetcher.DownloadImage` | Descarga_de_imagenes.py:16-31 | one fetch reports the count given by `SizeOf` and leaves the files given by `StoreOne` |
| `Fetcher.ReportedSizeIsStoredSize` | Descarga_de_imagenes.py:20-26 | a fetch reports a count exactly when its retrieval succeeds, and that count is the length of the file it leaves |
| `Fetcher.SameFileSameImage` | Descarga_de_imagenes.py:17-23 | two image numbers write the same file if and only if they normalise to the same id, and then they retrieve the same resource |
| `Fetcher.SecondFetchOverwrites` | Descarga_de_imagenes.py:24-25 | after a second successful fetch of an image, the file holds exactly what the second retrieval read, whatever the first one did |
| `Fetcher.FetchIdempotent` | Descarga_de_imagenes.py:24-25 | with a fixed catalog, fetching an image twice leaves the same files as fetching it once |
| `Fetcher.FetchesCommute` | Descarga_de_imagenes.py:20-26 | with a fixed catalog, two fetches leave the same files in either order |
| `Batch.AddSize` | Descarga_de_imagenes.py:12 | `total_bytes += size`, where adding a missing count raises; it carries no contract of its own, and `SumAsWrittenMeaning` and `FailedImageAbortsBatch` state what folding it over a batch means |
| `Batch.SumAsWritten` | Descarga_de_imagenes.py:10-13 | the fold the loop computes gives a total exactly when every fetch of the batch succeeds |
| `Batch.TotalBytes` | Descarga_de_imagenes.py:10-13 | the intended total; it carries no contract of its own, and `FailuresContributeZero`, `TotalBytesAppend` and `TotalBytesPermutation` state what it means |
| `Batch.StoreAll` | Descarga_de_imagenes.py:11-12 | the files after a batch of fetches keep every path that existed before and add only save paths of the batch's own images |
| `Batch.StoreAllContents` | Descarga_de_imagenes.py:11-12 | after a batch of fetches, a path that no successful fetch of the batch writes (a failed image's save path included) keeps its contents or stays absent, and the file of every successful fetch holds exactly the bytes it read |
| `Batch.StoreAllIdempotent` | Descarga_de_imagenes.py:47-56 | running a whole batch again against the same catalog leaves exactly the files one run leaves |
| `Batch.FirstFailure` | Descarga_de_imagenes.py:11-12 | the position where the sequential loop stops: every fetch before it succeeds, and the fetch there fails unless it is the end of the batch |
| `Batch.SeqDownloadImages` | Descarga_de_imagenes.py:9-13 | in input order, the total equals the code's fold of the per-item counts, and the files are those written by the fetches up to the first failure |
| `Batch.ParDownloadImages` | Descarga_de_imagenes.py:34-40 | folding the counts in any completion order gives the same total as the sequential fold, and the files are those written by all submitted fetches |
| `Batch.Evaluate` | Descarga_de_imagenes.py:46-65 | the mismatch exception is never raised; the evaluation reports the intended total if every fetch of the 50 images succeeds, and raises otherwise; the directory it leaves holds what the sequential pass wrote up to its first failure, because a parallel pass after a successful sequential one rewrites the same bytes |
| `Batch.TotalBytesAppend` | Descarga_de_imagenes.py:10-12 | the total of two concatenated batches is the sum of their totals |
| `Batch.SumAsWrittenValue` | Descarga_de_imagenes.py:10-13 | whenever the loop's fold yields a total, that total is the intended one |
| `Batch.SumAsWrittenMeaning` | Descarga_de_imagenes.py:10-12 | the code's total is `Some` of the intended total if every fetch succeeds, and `None` (an exception) otherwise |
| `Batch.FailedImageAbortsBatch` | Descarga_de_imagenes.py:12 | one failed fetch at any position leaves the batch with no total |
| `Batch.UnreachableImageExample` | Descarga_de_imagenes.py:12 | with one unreachable image the code's total is `None`, while the intended total is 0 |
| `Batch.FailuresContributeZero` | Descarga_de_imagenes.py:28-31 | in the intended total, a failed fetch at any position adds nothing and a successful one adds exactly its byte count |
| `Batch.TotalBytesPermutation` | Descarga_de_imagenes.py:38-39 | the intended total of a batch does not depend on the order of its items |
| `Batch.AllFetchedPermutation` | Descarga_de_imagenes.py:38-39 | whether every fetch succeeds does not depend on the order of the items |
| `Batch.ParallelMatchesSequential` | Descarga_de_imagenes.py:64-65 | the total folded in any completion order equals the sequential total, both as the code computes it and as intended |
| `Batch.ThreeImageExample` | Descarga_de_imagenes.py:34-40 | numbers 0, 1, 2 name images 1, 2, 3; for any catalog serving bodies of 100, 200 and 300 bytes for them, both the input order and any completion order give 600 |
| `Batch.StoreAllPermutation` | Descarga_de_imagenes.py:36-38 | with a fixed catalog, the files a batch leaves do not depend on the order in which its fetches run |
| `Batch.DistinctIdsWriteDistinctFiles` | Descarga_de_imagenes.py:23 | a batch whose numbers normalise to distinct ids writes distinct files, so its concurrent writes never target the same file |
| `Batch.EvaluationBatchWritesDistinctFiles` | Descarga_de_imagenes.py:44 | the 50 fetches of the evaluation batch write 50 distinct files |

## Left out

- Network retrieval (`urlopen`, the 60-second timeout, `conn.read()`) is replaced by the `Remote` oracle. A timeout counts as one more failure response.
- Opening and writing the file is one `Directory.Write`, and writes always succeed. A local write error, which the code would catch as a generic exception, is not modelled.
- Thread scheduling, the pool size and the interleaving of fetches are not modelled. The parallel runner runs each fetch whole, in completion order, and every submitted fetch completes. Torn writes when two fetches race on the same file are not modelled either. With a fixed catalog, such fetches write equal bytes.
- One fixed `Remote` serves both runs of the evaluation. A catalog that changes between the sequential and the parallel run is not modelled.
- The two failure paths are not told apart. The HTTP-error handler at line 29 raises an `UnboundLocalError` (a kind of `NameError`), because `e` is a local name of the function bound only by the handler at line 30. The generic handler prints and returns `None`, and the `+=` then raises. Either way the item has no count and the batch has no total.
- The printed diagnostics, the timing loops (including the repeated timed runs at lines 51 and 60), speedup, efficiency and `mp.cpu_count()` are console output and floating point.
- `Format03d` takes only non-negative numbers. The code applies `{:03d}` only to normalised ids, so the sign handling of `{:03d}` is never used.
- The host and directory strings are plain prefix constants. Windows path semantics are not modelled, and a path is simply a map key.

## Findings

| source | as written | input that shows it | evidently intended | confidence | as-written member | corrected member |
|---|---|---|---|---|---|---|
| Descarga_de_imagenes.py:12 | a failed fetch returns `None` (or raises `UnboundLocalError` at line 29), and `total_bytes += None` raises, so one failure aborts the whole batch; line 39 does the same in the parallel runner | batch `[0]` with the catalog failing for `image001.jpg` | a failed image contributes 0 and the batch still returns its total | not executed | `Batch.UnreachableImageExample` | `Batch.FailuresContributeZero` |
