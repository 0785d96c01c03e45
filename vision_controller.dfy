/** The image-analysis controller: the upload checks of `analyzeImage`, the
    quality score of `estimateImageQuality`, the status life-cycle written by
    `processImage`, and the owner-scoped queries `getAnalysis` and
    `getUserAnalyses`. OCR, `sharp` and the database are inputs. */
module VisionController {
  import opened Wrappers

  const MAX_FILE_SIZE: int := 5 * 1024 * 1024
  const ALLOWED_MIME_TYPES: seq<string> := ["image/jpeg", "image/png", "image/webp"]
  const MAX_RESOLUTION: int := 4096 * 4096

  // ---------------------------------------------------------------- upload

  /** What multer hands the controller for the `image` field. */
  datatype UploadedFile = UploadedFile(mimetype: string, size: int, originalname: string)

  /** The error answers of `analyzeImage`: the three 400s, in the order they
      are tested, and the 500 of a failed write of the upload. */
  datatype UploadError = MissingImage | UnsupportedType | TooLarge | StorageFailed
  {
    function Status(): int
    {
      if this == StorageFailed then 500 else 400
    }

    function Message(): string
    {
      match this
      case MissingImage => "Image manquante"
      case UnsupportedType => "Type de fichier non supporté"
      case TooLarge => "Image trop volumineuse (max 5MB)"
      case StorageFailed => "Erreur lors de l'analyse de l'image"
    }
  }

  /** The validation chain at the head of `analyzeImage`. */
  function CheckUpload(file: Option<UploadedFile>): (r: Result<UploadedFile, UploadError>)
    ensures r.Ok? <==> file.Some? && file.value.mimetype in ALLOWED_MIME_TYPES && file.value.size <= MAX_FILE_SIZE
    ensures r.Ok? ==> r.value == file.value
    ensures r.Err? ==> r.error.Status() == 400
    ensures file.None? ==> r == Err(MissingImage)
    ensures file.Some? && file.value.mimetype !in ALLOWED_MIME_TYPES ==> r == Err(UnsupportedType)
    ensures file.Some? && file.value.mimetype in ALLOWED_MIME_TYPES && file.value.size > MAX_FILE_SIZE ==>
      r == Err(TooLarge)
  {
    if file.None? then Err(MissingImage)
    else if file.value.mimetype !in ALLOWED_MIME_TYPES then Err(UnsupportedType)
    else if file.value.size > MAX_FILE_SIZE then Err(TooLarge)
    else Ok(file.value)
  }

  /** The size test is strict: a file of exactly 5 MiB is accepted, one byte
      more is refused. */
  lemma SizeLimitIsInclusive(mime: string, name: string)
    requires mime in ALLOWED_MIME_TYPES
    ensures CheckUpload(Some(UploadedFile(mime, 5 * 1024 * 1024, name))).Ok?
    ensures CheckUpload(Some(UploadedFile(mime, 5 * 1024 * 1024 + 1, name))) == Err(TooLarge)
  {
  }

  // --------------------------------------------------------- quality score

  function MinReal(a: real, b: real): real
  {
    if a <= b then a else b
  }

  /** `Math.round`: the nearest integer, halves rounded up. */
  function Round(x: real): (n: int)
    ensures n as real - 0.5 <= x < n as real + 0.5
  {
    (x + 0.5).Floor
  }

  /** `min(width*height / 4096², 1) * 100`. */
  function ResolutionScore(width: int, height: int): real
  {
    MinReal((width * height) as real / MAX_RESOLUTION as real, 1.0) * 100.0
  }

  /** `min(mean of the three channel deviations * 5, 100)`. */
  function SharpnessScore(s0: real, s1: real, s2: real): real
  {
    MinReal((s0 + s1 + s2) / 3.0 * 5.0, 100.0)
  }

  /** The integer nearest to the mean of the two partial scores. */
  function QualityScore(width: int, height: int, s0: real, s1: real, s2: real): (n: int)
    ensures var mean := (ResolutionScore(width, height) + SharpnessScore(s0, s1, s2)) / 2.0;
      n as real - 0.5 <= mean < n as real + 0.5
  {
    Round((ResolutionScore(width, height) + SharpnessScore(s0, s1, s2)) / 2.0)
  }

  /** With non-negative inputs both partial scores lie in [0, 100], and so
      does the rounded quality score. */
  lemma QualityScoreInRange(width: int, height: int, s0: real, s1: real, s2: real)
    requires width >= 0 && height >= 0 && s0 >= 0.0 && s1 >= 0.0 && s2 >= 0.0
    ensures 0.0 <= ResolutionScore(width, height) <= 100.0
    ensures 0.0 <= SharpnessScore(s0, s1, s2) <= 100.0
    ensures 0 <= QualityScore(width, height, s0, s1, s2) <= 100
  {
    assert width * height >= 0 by {
      if width > 0 && height > 0 { MulPositive(width, height); }
    }
    var avg := (ResolutionScore(width, height) + SharpnessScore(s0, s1, s2)) / 2.0;
    assert 0.0 <= avg <= 100.0;
    var n := Round(avg);
    assert n as real - 0.5 <= avg < n as real + 0.5;
  }

  lemma MulPositive(a: int, b: int)
    requires a > 0 && b > 0
    ensures a * b > 0
  {
  }

  /** Any image of at least 4096 x 4096 pixels gets the full resolution score. */
  lemma FullResolutionScore(width: int, height: int)
    requires width * height >= MAX_RESOLUTION
    ensures ResolutionScore(width, height) == 100.0
  {
  }

  /** The two worked examples of the design: 4096x4096 with deviation 20
      scores 100, and 1024x768 with deviation 10 scores 27. */
  lemma QualityScoreExamples()
    ensures QualityScore(4096, 4096, 20.0, 20.0, 20.0) == 100
    ensures QualityScore(1024, 768, 10.0, 10.0, 10.0) == 27
  {
    assert ResolutionScore(1024, 768) == 4.6875;
    assert SharpnessScore(10.0, 10.0, 10.0) == 50.0;
    assert Round(27.34375) == 27;
  }

  /** The two calls into `sharp`: its metadata (size, format, alpha,
      channel count) and its per-channel standard deviations. */
  datatype ImageInfo = ImageInfo(width: nat, height: nat, format: string, space: string,
                                 hasAlpha: bool, channels: nat, channelStdevs: seq<real>)

  datatype Quality = Quality(score: int, width: nat, height: nat, format: string, space: string,
                             hasAlpha: bool, channels: nat)

  /** `estimateImageQuality`: `None` stands for a failed `sharp` call. The
      score reads the deviations of channels 0, 1 and 2, so an image with
      fewer than three channels throws there and the helper answers null. */
  function EstimateImageQuality(info: Option<ImageInfo>): (r: Option<Quality>)
    ensures r.Some? <==> info.Some? && |info.value.channelStdevs| >= 3
    ensures r.Some? && (forall k :: 0 <= k < 3 ==> info.value.channelStdevs[k] >= 0.0) ==>
      0 <= r.value.score <= 100 && r.value.width == info.value.width && r.value.height == info.value.height
  {
    if info.None? || |info.value.channelStdevs| < 3 then None
    else
      var i := info.value;
      var sd := i.channelStdevs;
      ScoreInRangeWhenNonNegative(i.width, i.height, sd[0], sd[1], sd[2]);
      Some(Quality(QualityScore(i.width, i.height, sd[0], sd[1], sd[2]),
                   i.width, i.height, i.format, i.space, i.hasAlpha, i.channels))
  }

  lemma ScoreInRangeWhenNonNegative(width: nat, height: nat, s0: real, s1: real, s2: real)
    ensures s0 >= 0.0 && s1 >= 0.0 && s2 >= 0.0 ==> 0 <= QualityScore(width, height, s0, s1, s2) <= 100
  {
    if s0 >= 0.0 && s1 >= 0.0 && s2 >= 0.0 {
      QualityScoreInRange(width, height, s0, s1, s2);
    }
  }

  // ------------------------------------------------------------ job record

  /** The status column (`ENUM('processing', 'completed', 'failed')`). */
  datatype Status = Processing | Completed | Failed

  datatype Word = Word(text: string, confidence: real)

  /** What `worker.recognize` gives; `words` may be absent. */
  datatype OcrData = OcrData(text: string, words: Option<seq<Word>>)

  /** The dominant-colour summary, opaque here. */
  datatype Colors = Colors(dominant: seq<int>, palette: string)

  datatype Results = Results(text: string, words: seq<Word>, quality: Option<Quality>, colors: Option<Colors>)

  datatype Analysis = Analysis(id: nat, userId: nat, title: string, imageUrl: string, status: Status,
                               results: Option<Results>, error: Option<string>, createdAt: int)

  /** `req.body.title || 'Sans titre'`: an empty or missing title is replaced. */
  function DefaultTitle(title: string): (t: string)
    ensures t != []
    ensures title != [] ==> t == title
  {
    if title == [] then "Sans titre" else title
  }

  /** The record `processImage` leaves behind, given the outcome of the OCR
      steps (`Err` carries the exception's message) and of the two helpers. */
  function Processed(a: Analysis, ocr: Result<OcrData, string>, info: Option<ImageInfo>,
                     colors: Option<Colors>): (b: Analysis)
    ensures b.status == Completed || b.status == Failed
    ensures b.status == Completed <==> ocr.Ok?
    ensures b.id == a.id && b.userId == a.userId && b.title == a.title && b.createdAt == a.createdAt
    ensures ocr.Err? ==> b.error == Some(ocr.error) && b.results == a.results
    ensures ocr.Ok? ==> b.results.Some? && b.results.value.text == ocr.value.text && b.error == a.error
  {
    match ocr
    case Err(msg) => a.(status := Failed, error := Some(msg))
    case Ok(data) =>
      var words := if data.words.Some? then data.words.value else [];
      a.(status := Completed,
         results := Some(Results(data.text, words, EstimateImageQuality(info), colors)))
  }

  /** A failing quality or colour helper never fails the job: only the OCR
      outcome decides between `completed` and `failed`. */
  lemma HelpersNeverFailTheJob(a: Analysis, data: OcrData, info: Option<ImageInfo>, colors: Option<Colors>)
    ensures Processed(a, Ok(data), None, None).status == Completed
    ensures Processed(a, Ok(data), info, colors).status == Completed
    ensures Processed(a, Ok(data), None, colors).results.value.quality == None
  {
  }

  /** Job monotonicity: from `processing` the only statuses written are the
      two terminal ones. */
  predicate Follows(before: Status, after: Status)
  {
    before == after || (before == Processing && after != Processing)
  }

  lemma ProcessingOnlyMovesForward(a: Analysis, ocr: Result<OcrData, string>, info: Option<ImageInfo>,
                                   colors: Option<Colors>)
    requires a.status == Processing
    ensures Follows(a.status, Processed(a, ocr, info, colors).status)
    ensures Processed(a, ocr, info, colors).status != Processing
  {
  }

  // --------------------------------------------------------------- queries

  /** `Vision.findOne({ where: { id, userId } })`. */
  function FindOwned(rs: seq<Analysis>, id: nat, userId: nat): (r: Option<Analysis>)
    ensures r.Some? ==> r.value in rs && r.value.id == id && r.value.userId == userId
    ensures r.None? ==> forall k :: 0 <= k < |rs| ==> !(rs[k].id == id && rs[k].userId == userId)
  {
    if rs == [] then None
    else if rs[0].id == id && rs[0].userId == userId then Some(rs[0])
    else FindOwned(rs[1..], id, userId)
  }

  /** The records of one user, in table order: each of the user's records
      as many times as the table holds it (once, since ids are distinct),
      and no other record. */
  function OwnedBy(rs: seq<Analysis>, userId: nat): (r: seq<Analysis>)
    ensures forall a :: a in r <==> a in rs && a.userId == userId
    ensures forall a :: multiset(r)[a] == if a.userId == userId then multiset(rs)[a] else 0
  {
    if rs == [] then []
    else
      assert rs == [rs[0]] + rs[1..];
      var rest := OwnedBy(rs[1..], userId);
      if rs[0].userId == userId then [rs[0]] + rest else rest
  }

  /** `order: [['createdAt', 'DESC']]`. */
  predicate NewestFirst(s: seq<Analysis>)
  {
    forall i, j :: 0 <= i < j < |s| ==> s[i].createdAt >= s[j].createdAt
  }

  /** Putting the newest record in front of a newest-first list made of
      older records keeps the list newest-first. */
  lemma InsertBehind(a: Analysis, s: seq<Analysis>, t: seq<Analysis>)
    requires NewestFirst(s) && s != [] && a.createdAt < s[0].createdAt
    requires NewestFirst(t) && forall k :: 0 <= k < |t| ==> t[k] == a || t[k] in s[1..]
    ensures NewestFirst([s[0]] + t)
  {
    forall k | 0 <= k < |t| ensures s[0].createdAt >= t[k].createdAt {
      if t[k] != a {
        var j :| 0 <= j < |s[1..]| && s[1..][j] == t[k];
        assert s[j + 1] == t[k];
      }
    }
  }

  function InsertByDate(a: Analysis, s: seq<Analysis>): (r: seq<Analysis>)
    requires NewestFirst(s)
    ensures NewestFirst(r)
    ensures multiset(r) == multiset(s) + multiset{a}
    ensures |r| == |s| + 1
    ensures forall k :: 0 <= k < |r| ==> r[k] == a || r[k] in s
  {
    if s == [] || a.createdAt >= s[0].createdAt then [a] + s
    else
      var t := InsertByDate(a, s[1..]);
      InsertBehind(a, s, t);
      assert s == [s[0]] + s[1..];
      [s[0]] + t
  }

  function SortNewestFirst(s: seq<Analysis>): (r: seq<Analysis>)
    ensures NewestFirst(r)
    ensures multiset(r) == multiset(s)
  {
    if s == [] then []
    else
      assert s == [s[0]] + s[1..];
      InsertByDate(s[0], SortNewestFirst(s[1..]))
  }

  /** `getUserAnalyses`: exactly that user's records, newest first. */
  function UserAnalyses(rs: seq<Analysis>, userId: nat): (r: seq<Analysis>)
    ensures NewestFirst(r)
    ensures forall a :: a in r <==> a in rs && a.userId == userId
    ensures forall a :: multiset(r)[a] == if a.userId == userId then multiset(rs)[a] else 0
  {
    var owned := OwnedBy(rs, userId);
    var r := SortNewestFirst(owned);
    assert forall a :: a in r <==> a in owned by {
      forall a ensures a in r <==> a in owned {
        assert a in r <==> a in multiset(r);
        assert a in owned <==> a in multiset(owned);
      }
    }
    r
  }

  /** The analyses table, kept in insertion order. */
  class AnalysisStore {
    var records: seq<Analysis>
    var nextId: nat

    ghost predicate Valid()
      reads this
    {
      forall k :: 0 <= k < |records| ==> records[k].id < nextId
    }

    constructor ()
      ensures Valid() && records == []
    {
      records := [];
      nextId := 0;
    }

    /** `analyzeImage`: the checks, then the write of the upload under the
        generated name `storedName` (`written` is its outcome), then a new
        record in `processing` whose URL points at that file. Background
        processing is started separately with `ProcessImage`. */
    method AnalyzeImage(userId: nat, file: Option<UploadedFile>, title: string, storedName: string,
                        written: bool, now: int)
      returns (r: Result<Analysis, UploadError>)
      requires Valid()
      modifies this
      ensures Valid()
      ensures r.Err? ==> records == old(records) && nextId == old(nextId)
      ensures CheckUpload(file).Err? ==> r == Err(CheckUpload(file).error)
      ensures CheckUpload(file).Ok? && !written ==> r == Err(StorageFailed)
      ensures r.Ok? <==> CheckUpload(file).Ok? && written
      ensures r.Ok? ==>
        && r.value == Analysis(old(nextId), userId, DefaultTitle(title), "/uploads/" + storedName,
                               Processing, None, None, now)
        && records == old(records) + [r.value]
        && nextId == old(nextId) + 1
    {
      var checked := CheckUpload(file);
      if checked.Err? {
        return Err(checked.error);
      }
      if !written {
        return Err(StorageFailed);
      }
      var a := Analysis(nextId, userId, DefaultTitle(title), "/uploads/" + storedName, Processing, None, None, now);
      records := records + [a];
      nextId := nextId + 1;
      r := Ok(a);
    }

    /** `processImage`: look the record up by id (nothing happens if it is
        gone), then write `completed` with results or `failed` with the
        message. `terminated` says whether the private OCR worker was shut
        down: only the success path reaches `worker.terminate()`. */
    method ProcessImage(analysisId: nat, ocr: Result<OcrData, string>, info: Option<ImageInfo>,
                        colors: Option<Colors>) returns (terminated: bool)
      requires Valid()
      modifies this
      ensures Valid() && nextId == old(nextId) && |records| == |old(records)|
      ensures terminated <==> ocr.Ok? && exists k :: 0 <= k < |old(records)| && old(records)[k].id == analysisId
      ensures forall k :: 0 <= k < |records| ==>
        records[k] == if old(records)[k].id == analysisId then Processed(old(records)[k], ocr, info, colors)
                      else old(records)[k]
    {
      var k := 0;
      while k < |records| && records[k].id != analysisId
        invariant 0 <= k <= |records|
        invariant forall m :: 0 <= m < k ==> records[m].id != analysisId
      {
        k := k + 1;
      }
      if k == |records| {
        return false;
      }
      records := UpdateWhere(records, analysisId, ocr, info, colors);
      terminated := ocr.Ok?;
    }
  }

  /** `Vision.update(..., { where: { id } })` / `analysis.update(...)`. */
  function UpdateWhere(rs: seq<Analysis>, id: nat, ocr: Result<OcrData, string>, info: Option<ImageInfo>,
                       colors: Option<Colors>): (r: seq<Analysis>)
    ensures |r| == |rs|
    ensures forall k :: 0 <= k < |rs| ==>
      r[k] == if rs[k].id == id then Processed(rs[k], ocr, info, colors) else rs[k]
  {
    if rs == [] then []
    else [if rs[0].id == id then Processed(rs[0], ocr, info, colors) else rs[0]]
         + UpdateWhere(rs[1..], id, ocr, info, colors)
  }
}
