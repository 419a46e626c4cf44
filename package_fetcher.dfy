/**
 * The package half of `get_app_info_and_download`: the kind sniffed from the response,
 * the file name, the chunked write with its byte counter and progress reports, and the
 * size label.
 */
module PackageFetcher {
  import opened Common
  import opened Text
  import opened Urls

  // ----- package kind -----

  datatype PackageKind = Apk | Xapk | Apks

  function Extension(kind: PackageKind): string {
    match kind
    case Apk => ".apk"
    case Xapk => ".xapk"
    case Apks => ".apks"
  }

  /** `.xapk` in the lower-cased Content-Disposition or address wins, then `.apks`, else a plain package. */
  function Classify(contentDisposition: string, url: string): (kind: PackageKind)
    ensures kind == Xapk <==> Contains(Lower(contentDisposition), ".xapk") || Contains(Lower(url), ".xapk")
    ensures kind == Apks <==> kind != Xapk && (Contains(Lower(contentDisposition), ".apks") || Contains(Lower(url), ".apks"))
  {
    var disposition, address := Lower(contentDisposition), Lower(url);
    if Contains(disposition, ".xapk") || Contains(address, ".xapk") then Xapk
    else if Contains(disposition, ".apks") || Contains(address, ".apks") then Apks
    else Apk
  }

  /** A Content-Disposition naming an `.xapk` decides the kind whatever the address says. */
  lemma XapkDispositionWins(contentDisposition: string, url: string)
    requires Contains(contentDisposition, ".xapk")
    ensures Classify(contentDisposition, url) == Xapk
  {
    var i :| 0 <= i <= |contentDisposition| - 5 && OccursAt(contentDisposition, ".xapk", i);
    var lower := Lower(contentDisposition);
    assert lower[i..i + 5] == ".xapk" by {
      forall k | 0 <= k < 5 ensures lower[i + k] == ".xapk"[k] {
        assert contentDisposition[i + k] == ".xapk"[k];
      }
    }
    assert OccursAt(lower, ".xapk", i);
  }

  /** `hasOBB`: set for the bundle kind only. */
  function HasObb(kind: PackageKind): bool {
    kind == Xapk
  }

  /** `fileType`: `file_ext.upper().replace('.', '')`. */
  function FileType(kind: PackageKind): string {
    RemoveAll(Upper(Extension(kind)), ".")
  }

  /** Removing every "." from "." + s, for an s without one, leaves s. */
  lemma RemoveLeadingDot(s: string)
    requires forall k :: 0 <= k < |s| ==> s[k] != '.'
    ensures RemoveAll("." + s, ".") == s
  {
    assert ("." + s)[1..] == s;
    assert MatchesAt("." + s, Literal("."), 0);
    forall i | 0 <= i <= |s| - 1 ensures !OccursAt(s, ".", i) {
      assert s[i..i + 1] == [s[i]];
    }
    RemoveAllIdentityIffAbsent(s, ".");
  }

  /** The three kinds are reported as APK, XAPK and APKS, so the report names the kind. */
  lemma FileTypeNames(kind: PackageKind)
    ensures FileType(kind) == match kind case Apk => "APK" case Xapk => "XAPK" case Apks => "APKS"
    ensures HasObb(kind) <==> FileType(kind) == "XAPK"
  {
    match kind {
      case Apk =>
        assert Upper(Extension(kind)) == "." + "APK";
        RemoveLeadingDot("APK");
      case Xapk =>
        assert Upper(Extension(kind)) == "." + "XAPK";
        RemoveLeadingDot("XAPK");
      case Apks =>
        assert Upper(Extension(kind)) == "." + "APKS";
        RemoveLeadingDot("APKS");
    }
  }

  // ----- file name -----

  /** The characters kept by `re.sub(r'[^a-zA-Z0-9_-]', '_', title)`. */
  predicate IsSafeChar(c: char) {
    IsAsciiLetter(c) || IsAsciiDigit(c) || c == '_' || c == '-'
  }

  function SafeChar(c: char): char {
    if IsSafeChar(c) then c else '_'
  }

  /** The sanitised title: one character per character of the title. */
  function SafeFilename(title: string): (r: string)
    ensures |r| == |title|
  {
    seq(|title|, i requires 0 <= i < |title| => SafeChar(title[i]))
  }

  /**
   * Sanitising keeps every allowed character in place, maps every other one to '_',
   * leaves only allowed characters and is idempotent.
   */
  lemma SafeFilenameProperties(title: string)
    ensures forall i :: 0 <= i < |title| ==>
              (IsSafeChar(title[i]) ==> SafeFilename(title)[i] == title[i])
              && (!IsSafeChar(title[i]) ==> SafeFilename(title)[i] == '_')
    ensures forall i :: 0 <= i < |title| ==> IsSafeChar(SafeFilename(title)[i])
    ensures SafeFilename(SafeFilename(title)) == SafeFilename(title)
  {
  }

  /** `f"{safe_filename}{file_ext}"`. */
  function Filename(title: string, kind: PackageKind): string {
    SafeFilename(title) + Extension(kind)
  }

  /** A file name is safe characters up to its extension's '.'. */
  lemma FilenameLayout(title: string, kind: PackageKind)
    ensures forall i :: 0 <= i < |SafeFilename(title)| ==> IsSafeChar(Filename(title, kind)[i])
    ensures Filename(title, kind)[|SafeFilename(title)|] == '.'
  {
    SafeFilenameProperties(title);
  }

  /**
   * The only '.' of a file name is the one that starts its extension, so the name
   * determines both the sanitised title and the kind.
   */
  lemma FilenameDeterminesKind(t1: string, k1: PackageKind, t2: string, k2: PackageKind)
    requires Filename(t1, k1) == Filename(t2, k2)
    ensures k1 == k2 && SafeFilename(t1) == SafeFilename(t2)
  {
    var s1, s2 := SafeFilename(t1), SafeFilename(t2);
    var f := Filename(t1, k1);
    FilenameLayout(t1, k1);
    FilenameLayout(t2, k2);
    if |s1| < |s2| {
      assert false;
    } else if |s2| < |s1| {
      assert false;
    }
    assert s1 == f[..|s1|] == s2;
    assert Extension(k1) == f[|s1|..] == Extension(k2);
  }

  // ----- the chunked write -----

  /** The bytes a sequence of chunks puts in the file, in order. */
  function Flatten(chunks: seq<Bytes>): Bytes {
    if |chunks| == 0 then [] else Flatten(chunks[..|chunks| - 1]) + chunks[|chunks| - 1]
  }

  /** The sum of the lengths of the non-empty chunks. */
  function SumOfLengths(chunks: seq<Bytes>): nat {
    if |chunks| == 0 then 0
    else if chunks[0] == [] then SumOfLengths(chunks[1..])
    else |chunks[0]| + SumOfLengths(chunks[1..])
  }

  /** The running byte count after each non-empty chunk: the progress reports, when they are made. */
  function ProgressMarks(chunks: seq<Bytes>): seq<nat> {
    if |chunks| == 0 then []
    else
      var init := chunks[..|chunks| - 1];
      if chunks[|chunks| - 1] == [] then ProgressMarks(init)
      else ProgressMarks(init) + [|Flatten(chunks)|]
  }

  lemma {:induction false} FlattenAppend(a: seq<Bytes>, b: seq<Bytes>)
    ensures Flatten(a + b) == Flatten(a) + Flatten(b)
    decreases |b|
  {
    if |b| == 0 {
      assert a + b == a;
    } else {
      assert (a + b)[..|a + b| - 1] == a + b[..|b| - 1];
      FlattenAppend(a, b[..|b| - 1]);
    }
  }

  /** The counter's final value is the file's length. */
  lemma {:induction false} FlattenLength(chunks: seq<Bytes>)
    ensures |Flatten(chunks)| == SumOfLengths(chunks)
    decreases |chunks|
  {
    if |chunks| > 0 {
      FlattenAppend([chunks[0]], chunks[1..]);
      assert [chunks[0]] + chunks[1..] == chunks;
      assert Flatten([chunks[0]]) == Flatten([]) + chunks[0];
      FlattenLength(chunks[1..]);
    }
  }

  /** Each report is a positive count no larger than the bytes written, and the last one is all of them. */
  lemma {:induction false} ProgressMarksBounded(chunks: seq<Bytes>)
    ensures forall i :: 0 <= i < |ProgressMarks(chunks)| ==> 0 < ProgressMarks(chunks)[i] <= |Flatten(chunks)|
    ensures ProgressMarks(chunks) != [] ==> ProgressMarks(chunks)[|ProgressMarks(chunks)| - 1] == |Flatten(chunks)|
    ensures ProgressMarks(chunks) == [] <==> Flatten(chunks) == []
    decreases |chunks|
  {
    if |chunks| > 0 {
      var init := chunks[..|chunks| - 1];
      var last := chunks[|chunks| - 1];
      ProgressMarksBounded(init);
      var before := ProgressMarks(init);
      assert |Flatten(chunks)| == |Flatten(init)| + |last|;
      if last != [] {
        assert ProgressMarks(chunks) == before + [|Flatten(chunks)|];
      }
    }
  }

  /** The reports rise strictly: every report follows a chunk that added bytes. */
  lemma {:induction false} ProgressMarksIncreasing(chunks: seq<Bytes>)
    ensures forall i, j :: 0 <= i < j < |ProgressMarks(chunks)| ==> ProgressMarks(chunks)[i] < ProgressMarks(chunks)[j]
    decreases |chunks|
  {
    if |chunks| > 0 {
      var init := chunks[..|chunks| - 1];
      var last := chunks[|chunks| - 1];
      ProgressMarksIncreasing(init);
      ProgressMarksBounded(init);
      var before := ProgressMarks(init);
      if last != [] {
        var marks := ProgressMarks(chunks);
        assert |Flatten(chunks)| == |Flatten(init)| + |last|;
        assert marks == before + [|Flatten(chunks)|];
        forall i, j | 0 <= i < j < |marks| ensures marks[i] < marks[j] {
          assert marks[i] == before[i];
          if j < |before| {
            assert marks[j] == before[j];
          }
        }
      }
    }
  }

  /**
   * The `with open(...)` block: writes every non-empty chunk in order, counts the bytes,
   * and reports progress after each chunk only when the declared size is positive.
   */
  method WriteChunks(chunks: seq<Bytes>, totalSize: int) returns (file: Bytes, downloaded: nat, reports: seq<nat>)
    ensures file == Flatten(chunks)
    ensures downloaded == SumOfLengths(chunks) == |file|
    ensures reports == if totalSize > 0 then ProgressMarks(chunks) else []
  {
    file, downloaded, reports := [], 0, [];
    var i := 0;
    while i < |chunks|
      invariant 0 <= i <= |chunks|
      invariant file == Flatten(chunks[..i])
      invariant downloaded == |file|
      invariant reports == if totalSize > 0 then ProgressMarks(chunks[..i]) else []
    {
      var chunk := chunks[i];
      assert chunks[..i + 1][..i] == chunks[..i];
      if chunk != [] {
        file := file + chunk;
        downloaded := downloaded + |chunk|;
        if totalSize > 0 {
          reports := reports + [downloaded];
        }
      }
      i := i + 1;
    }
    assert chunks[..i] == chunks;
    FlattenLength(chunks);
  }

  // ----- size -----

  const BytesPerMB: nat := 1024 * 1024

  /** `round(n / d)` with ties to even, as Python's `format(x, '.2f')` rounds an exact binary value. */
  function RoundHalfEven(n: nat, d: nat): (q: nat)
    requires d > 0
    ensures 2 * (if q * d >= n then q * d - n else n - q * d) <= d
    ensures q == n / d || q == n / d + 1
    ensures 2 * (n % d) == d ==> q % 2 == 0
  {
    var lower, rest := n / d, n % d;
    assert n == lower * d + rest && rest < d;
    assert (lower + 1) * d == lower * d + d;
    if 2 * rest > d then lower + 1
    else if 2 * rest < d then lower
    else if lower % 2 == 0 then lower else lower + 1
  }

  /** The size in hundredths of a megabyte, rounded as `f"{total / 2**20:.2f}"` rounds it. */
  function HundredthsOfMB(totalSize: nat): nat {
    RoundHalfEven(totalSize * 100, BytesPerMB)
  }

  function TwoDigits(n: nat): string
    requires n < 100
  {
    [DigitChar(n / 10), DigitChar(n % 10)]
  }

  /** The `size` field: "<MB with two decimals> MB", or "Unknown" when the declared length is not positive. */
  function SizeLabel(totalSize: int): (size: string)
    ensures totalSize <= 0 <==> size == "Unknown"
  {
    if totalSize > 0 then
      var h := HundredthsOfMB(totalSize);
      var size := NatToString(h / 100) + "." + TwoDigits(h % 100) + " MB";
      assert size[0] == NatToString(h / 100)[0] != "Unknown"[0];
      size
    else "Unknown"
  }

  /** A 10 MB download is labelled "10.00 MB". */
  lemma TenMegabytes()
    ensures SizeLabel(10485760) == "10.00 MB"
  {
    assert HundredthsOfMB(10485760) == 1000;
    assert NatToString(10) == "10";
  }
}
