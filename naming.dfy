/**
  Identifiers, resource addresses and file names of the image catalog.

  Any integer is mapped onto one of the 50 catalog images; the image's
  number is rendered with three zero-padded digits (`{:03d}`) inside
  `image???.jpg`, which is appended both to the remote host and to the
  local destination directory.
 */
module Naming {

  /** Number of images in the remote catalog. */
  const CatalogSize: nat := 50

  /** The batch the evaluation runs on: the image numbers 0, 1, ..., 49. */
  const ImageNumbers: seq<int> := seq(50, i => i)

  /** The fixed remote host, up to and including the last '/'. */
  const UrlPrefix: string := "http://699340.youcanlearnit.net/"

  /** The fixed destination directory, up to and including the last '\'. */
  const SaveDir: string := @"C:\Users\Usuario\Desktop\Joker2\img1\"

  // ---------------------------------------------------------------------
  // Normalisation
  // ---------------------------------------------------------------------

  /** Absolute value of an integer. */
  function Abs(n: int): (a: nat)
    ensures a == n || a == -n
  {
    if n < 0 then -n else n
  }

  /** `abs(n) % 50 + 1`: any integer, whatever its sign, lands on a catalog id. */
  function Normalize(n: int): (id: nat)
    ensures 1 <= id <= CatalogSize
  {
    Abs(n) % CatalogSize + 1
  }

  /** A few values of the normalisation, among them the one for -1. */
  lemma NormalizeValues()
    ensures Normalize(0) == 1 && Normalize(49) == 50
    ensures Normalize(50) == 1 && Normalize(-1) == 2
  {
  }

  /** The sign of the image number is ignored. */
  lemma NormalizeIgnoresSign(n: int)
    ensures Normalize(-n) == Normalize(n)
  {
  }

  /** Image numbers that differ by a multiple of the catalog size name the same image. */
  lemma {:induction false} NormalizePeriodic(n: nat, k: nat)
    ensures Normalize(n + k * CatalogSize) == Normalize(n)
  {
    if k > 0 {
      NormalizePeriodic(n, k - 1);
      assert n + k * CatalogSize == (n + (k - 1) * CatalogSize) + CatalogSize;
    }
  }

  /** On 0..49 normalisation is a bijection onto the catalog 1..50, so the
      evaluation batch names every catalog image exactly once. */
  lemma EvaluationBatchCoversCatalog()
    ensures |ImageNumbers| == CatalogSize
    ensures forall i :: 0 <= i < |ImageNumbers| ==> Normalize(ImageNumbers[i]) == i + 1
    ensures forall i, j :: 0 <= i < j < |ImageNumbers| ==>
      Normalize(ImageNumbers[i]) != Normalize(ImageNumbers[j])
    ensures forall id :: 1 <= id <= CatalogSize ==> id in NormalizeAll(ImageNumbers)
  {
    forall id | 1 <= id <= CatalogSize
      ensures id in NormalizeAll(ImageNumbers)
    {
      assert NormalizeAll(ImageNumbers)[id - 1] == id;
    }
  }

  /** The catalog ids a batch of image numbers names, in batch order. */
  function NormalizeAll(ns: seq<int>): seq<nat> {
    seq(|ns|, i requires 0 <= i < |ns| => Normalize(ns[i]))
  }

  // ---------------------------------------------------------------------
  // Decimal rendering, `{:03d}`, and its inverse
  // ---------------------------------------------------------------------

  predicate IsDigit(c: char) {
    '0' <= c <= '9'
  }

  predicate AllDigits(s: string) {
    forall i :: 0 <= i < |s| ==> IsDigit(s[i])
  }

  function DigitChar(d: nat): (c: char)
    requires d < 10
    ensures IsDigit(c) && c as int - '0' as int == d
  {
    ('0' as int + d) as char
  }

  function DigitValue(c: char): int {
    c as int - '0' as int
  }

  /** The decimal digits of `n`, most significant first, without leading zeros. */
  function Decimal(n: nat): (s: string)
    ensures 1 <= |s| && AllDigits(s)
    ensures n < 10 ==> |s| == 1
    ensures 10 <= n < 100 ==> |s| == 2
    ensures 100 <= n < 1000 ==> |s| == 3
    ensures 1000 <= n ==> 3 < |s|
  {
    if n < 10 then [DigitChar(n)] else Decimal(n / 10) + [DigitChar(n % 10)]
  }

  function Zeros(k: nat): string {
    seq(k, _ => '0')
  }

  /** Python's `'{:03d}'.format(n)` for a non-negative `n`: its decimal
      digits, padded on the left with '0' up to three characters. */
  function Format03d(n: nat): (s: string)
    ensures AllDigits(s) && 3 <= |s|
    ensures n < 1000 <==> |s| == 3
  {
    var d := Decimal(n);
    if |d| < 3 then Zeros(3 - |d|) + d else d
  }

  /** Reads a string of decimal digits back as a number (the inverse of the rendering). */
  function Parse(s: string): int {
    if s == [] then 0 else 10 * Parse(s[..|s| - 1]) + DigitValue(s[|s| - 1])
  }

  lemma {:induction false} ParseDecimal(n: nat)
    ensures Parse(Decimal(n)) == n
  {
    var s := Decimal(n);
    if n >= 10 {
      ParseDecimal(n / 10);
      assert s[..|s| - 1] == Decimal(n / 10);
    }
  }

  lemma {:induction false} ParseLeadingZero(s: string)
    ensures Parse(['0'] + s) == Parse(s)
  {
    if s != [] {
      var t := ['0'] + s;
      assert t[..|t| - 1] == ['0'] + s[..|s| - 1];
      ParseLeadingZero(s[..|s| - 1]);
    }
  }

  lemma {:induction false} ParseZeroPadded(k: nat, s: string)
    ensures Parse(Zeros(k) + s) == Parse(s)
  {
    if k > 0 {
      var rest := Zeros(k - 1) + s;
      assert Zeros(k) + s == ['0'] + rest;
      calc {
        Parse(Zeros(k) + s);
        Parse(['0'] + rest);
        { ParseLeadingZero(rest); }
        Parse(rest);
        { ParseZeroPadded(k - 1, s); }
        Parse(s);
      }
    } else {
      assert Zeros(k) + s == s;
    }
  }

  /** The padded rendering reads back as the number it renders. */
  lemma Format03dRoundTrip(n: nat)
    ensures Parse(Format03d(n)) == n
  {
    var d := Decimal(n);
    ParseDecimal(n);
    if |d| < 3 {
      ParseZeroPadded(3 - |d|, d);
    }
  }

  /** Every catalog id renders as exactly three digits that read back as the id. */
  lemma CatalogIdRendering(id: nat)
    requires 1 <= id <= CatalogSize
    ensures |Format03d(id)| == 3 && AllDigits(Format03d(id))
    ensures Parse(Format03d(id)) == id
  {
    Format03dRoundTrip(id);
  }

  // ---------------------------------------------------------------------
  // File names, resource addresses and save paths
  // ---------------------------------------------------------------------

  /** A file name shaped like `image???.jpg`: the `image` prefix, at least
      one character, and the `.jpg` suffix. */
  predicate IsImageName(name: string) {
    10 <= |name| && name[..5] == "image" && name[|name| - 4..] == ".jpg"
  }

  /** `image{id:03d}.jpg`, the file name of catalog image `id`. */
  function ImageName(id: nat): (name: string)
    ensures IsImageName(name) && 12 <= |name|
  {
    "image" + Format03d(id) + ".jpg"
  }

  /** Recovers the id from a file name shaped like `image???.jpg`. */
  function IdOfImageName(name: string): int
    requires IsImageName(name)
  {
    Parse(name[5..|name| - 4])
  }

  /** The file name determines the id it was built from. */
  lemma ImageNameRoundTrip(id: nat)
    ensures IdOfImageName(ImageName(id)) == id
  {
    var name := ImageName(id);
    assert name[5..|name| - 4] == Format03d(id);
    Format03dRoundTrip(id);
  }

  /** `'http://699340.youcanlearnit.net/image{:03d}.jpg'.format(id)`: the
      address of the image on the remote host. */
  function Url(id: nat): (url: string)
    ensures |UrlPrefix| < |url| && IsImageName(url[|UrlPrefix|..])
  {
    var url := "http://699340.youcanlearnit.net/image" + Format03d(id) + ".jpg";
    UrlAndSavePathShareName(id);
    url
  }

  /** `r'C:\Users\Usuario\Desktop\Joker2\img1\image{:03d}.jpg'.format(id)`:
      where the image is stored locally. */
  function SavePath(id: nat): (path: string)
    ensures |SaveDir| < |path| && IsImageName(path[|SaveDir|..])
  {
    var path := @"C:\Users\Usuario\Desktop\Joker2\img1\image" + Format03d(id) + ".jpg";
    UrlAndSavePathShareName(id);
    path
  }

  /** The two format strings are the host prefix and the directory prefix,
      each followed by the same file name `image{id:03d}.jpg`. */
  lemma UrlAndSavePathShareName(id: nat)
    ensures "http://699340.youcanlearnit.net/image" + Format03d(id) + ".jpg" == UrlPrefix + ImageName(id)
    ensures @"C:\Users\Usuario\Desktop\Joker2\img1\image" + Format03d(id) + ".jpg" == SaveDir + ImageName(id)
  {
    assert "http://699340.youcanlearnit.net/image" == UrlPrefix + "image";
    assert @"C:\Users\Usuario\Desktop\Joker2\img1\image" == SaveDir + "image";
    var d := Format03d(id);
    assert (UrlPrefix + "image") + d + ".jpg" == UrlPrefix + ("image" + d + ".jpg");
    assert (SaveDir + "image") + d + ".jpg" == SaveDir + ("image" + d + ".jpg");
  }

  /** The address and the save path of an id end in the same file name. */
  lemma UrlAndSavePathEndInName(id: nat)
    ensures Url(id)[..|UrlPrefix|] == UrlPrefix && Url(id)[|UrlPrefix|..] == ImageName(id)
    ensures SavePath(id)[..|SaveDir|] == SaveDir && SavePath(id)[|SaveDir|..] == ImageName(id)
  {
    UrlAndSavePathShareName(id);
  }

  /** Distinct ids give distinct names, addresses and save paths, and conversely. */
  lemma NamesDetermineId(a: nat, b: nat)
    ensures ImageName(a) == ImageName(b) <==> a == b
    ensures Url(a) == Url(b) <==> a == b
    ensures SavePath(a) == SavePath(b) <==> a == b
  {
    ImageNameRoundTrip(a);
    ImageNameRoundTrip(b);
    UrlAndSavePathEndInName(a);
    UrlAndSavePathEndInName(b);
  }
}
