/**
  The fetch-and-store step: one image number is normalised, its image is
  retrieved from the remote catalog and, when the retrieval succeeds, the
  bytes are written whole to the image's save path and their count is
  returned.

  The network is an oracle, a total function from resource address to
  response; the local file system is a map from path to contents.
 */
module Fetcher {
  import opened Naming

  datatype Option<T> = None | Some(value: T) {
    function GetOr(default: T): T {
      match this
      case Some(v) => v
      case None => default
    }
  }

  newtype byte = b: int | 0 <= b < 256

  type Bytes = seq<byte>

  /** What a retrieval yields: the whole body, a non-success status, or any other failure
      (connection error, timeout, malformed response). */
  datatype Response = Body(data: Bytes) | HttpError | OtherError

  /** The remote catalog, fixed for the duration of a run. */
  type Remote = string -> Response

  /** The local file system, written one whole file at a time. */
  class Directory {
    var files: map<string, Bytes>

    constructor (initial: map<string, Bytes>)
      ensures files == initial
    {
      files := initial;
    }

    /** Opens `path` for binary writing (truncating it) and writes `data`. */
    method Write(path: string, data: Bytes)
      modifies this
      ensures files == old(files)[path := data]
    {
      files := files[path := data];
    }
  }

  /** The bytes read for an image number, or None when the retrieval fails. */
  function Retrieve(remote: Remote, imageNumber: int): Option<Bytes> {
    match remote(Url(Normalize(imageNumber)))
    case Body(data) => Some(data)
    case HttpError => None
    case OtherError => None
  }

  predicate Fetched(remote: Remote, imageNumber: int) {
    Retrieve(remote, imageNumber).Some?
  }

  /** The file a fetch of this image number writes. */
  function FileOf(imageNumber: int): (path: string)
    ensures |SaveDir| < |path| && path[..|SaveDir|] == SaveDir
    ensures IsImageName(path[|SaveDir|..]) && IdOfImageName(path[|SaveDir|..]) == Normalize(imageNumber)
  {
    UrlAndSavePathEndInName(Normalize(imageNumber));
    ImageNameRoundTrip(Normalize(imageNumber));
    SavePath(Normalize(imageNumber))
  }

  /** The byte count the fetch reports, or None when it yields no count. */
  function SizeOf(remote: Remote, imageNumber: int): Option<nat> {
    match Retrieve(remote, imageNumber)
    case Some(data) => Some(|data|)
    case None => None
  }

  /** The file system after one fetch of `imageNumber`. A successful fetch
      puts exactly the bytes read at the image's save path and leaves every
      other file as it was; a failed fetch writes nothing. */
  function StoreOne(files: map<string, Bytes>, remote: Remote, imageNumber: int): (r: map<string, Bytes>)
    ensures Fetched(remote, imageNumber) ==>
      FileOf(imageNumber) in r && r[FileOf(imageNumber)] == Retrieve(remote, imageNumber).value
    ensures forall p :: p != FileOf(imageNumber) ==>
      (p in r <==> p in files) && (p in r ==> r[p] == files[p])
    ensures !Fetched(remote, imageNumber) ==> r == files
  {
    match Retrieve(remote, imageNumber)
    case Some(data) => files[FileOf(imageNumber) := data]
    case None => files
  }

  /** `_download_image`: normalises the number, retrieves the image and writes it. */
  method DownloadImage(remote: Remote, imageNumber: int, dir: Directory) returns (size: Option<nat>)
    modifies dir
    ensures size == SizeOf(remote, imageNumber)
    ensures dir.files == StoreOne(old(dir.files), remote, imageNumber)
  {
    var id := Normalize(imageNumber);
    var imageUrl := Url(id);
    match remote(imageUrl)
    case Body(imageData) =>
      var imageSize := |imageData|;
      var savePath := SavePath(id);
      dir.Write(savePath, imageData);
      size := Some(imageSize);
    case HttpError =>
      size := None;
    case OtherError =>
      size := None;
  }

  /** The count a successful fetch reports is the length of the file it leaves. */
  lemma ReportedSizeIsStoredSize(files: map<string, Bytes>, remote: Remote, imageNumber: int)
    ensures SizeOf(remote, imageNumber).Some? <==> Fetched(remote, imageNumber)
    ensures SizeOf(remote, imageNumber).Some? ==>
      FileOf(imageNumber) in StoreOne(files, remote, imageNumber) &&
      SizeOf(remote, imageNumber).value == |StoreOne(files, remote, imageNumber)[FileOf(imageNumber)]|
  {
  }

  /** Image numbers with the same catalog id share their file and their
      retrieval; distinct catalog ids never share a file. */
  lemma SameFileSameImage(remote: Remote, x: int, y: int)
    ensures FileOf(x) == FileOf(y) <==> Normalize(x) == Normalize(y)
    ensures FileOf(x) == FileOf(y) ==> Retrieve(remote, x) == Retrieve(remote, y)
  {
    NamesDetermineId(Normalize(x), Normalize(y));
  }

  /** A second fetch of the same image replaces the file: what remains is
      exactly what the second retrieval read, whatever the first one did. */
  lemma SecondFetchOverwrites(files: map<string, Bytes>, first: Remote, second: Remote, imageNumber: int)
    requires Fetched(second, imageNumber)
    ensures StoreOne(StoreOne(files, first, imageNumber), second, imageNumber)
         == StoreOne(files, second, imageNumber)
  {
  }

  /** Against a fixed catalog, fetching an image twice leaves what fetching it once does. */
  lemma FetchIdempotent(files: map<string, Bytes>, remote: Remote, imageNumber: int)
    ensures StoreOne(StoreOne(files, remote, imageNumber), remote, imageNumber)
         == StoreOne(files, remote, imageNumber)
  {
    if Fetched(remote, imageNumber) {
      SecondFetchOverwrites(files, remote, remote, imageNumber);
    }
  }

  /** Two fetches against a fixed catalog leave the same files in either order:
      distinct ids write distinct files, equal ids write equal bytes. */
  lemma FetchesCommute(files: map<string, Bytes>, remote: Remote, x: int, y: int)
    ensures StoreOne(StoreOne(files, remote, x), remote, y)
         == StoreOne(StoreOne(files, remote, y), remote, x)
  {
    SameFileSameImage(remote, x, y);
    if Fetched(remote, x) && Fetched(remote, y) && FileOf(x) != FileOf(y) {
      var dx, dy := Retrieve(remote, x).value, Retrieve(remote, y).value;
      assert files[FileOf(x) := dx][FileOf(y) := dy] == files[FileOf(y) := dy][FileOf(x) := dx];
    }
  }
}
