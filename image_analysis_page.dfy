/** The image page of the web client: the file check made before upload,
    the file picker's effect on the form, and the look-up of an analysis in
    the list already fetched. */
module ImageAnalysisPage {
  import opened Wrappers
  import opened Text
  import VisionController

  /** The page's own limit: ten MiB, although its message says 5MB. */
  const MAX_FILE_SIZE: int := 10 * 1024 * 1024
  const ALLOWED_MIME_TYPES: seq<string> := ["image/jpeg", "image/png", "image/webp"]

  const NO_FILE := "Veuillez sélectionner un fichier"
  const BAD_TYPE := "Type de fichier non supporté. Utilisez JPG, PNG ou WebP"
  const TOO_LARGE := "Fichier trop volumineux. Maximum 5MB"
  const NONE_SELECTED := "Aucun fichier sélectionné"
  const NOT_FOUND := "Analyse non trouvée"

  /** A browser `File`: its name, MIME type and size in bytes. */
  datatype File = File(name: string, mimeType: string, size: int)

  /** `validateFile`: the first failing check's message, or nothing when
      the file is present, of an allowed type and at most 10 MiB. */
  function ValidateFile(file: Option<File>): (r: Option<string>)
    ensures r.None? <==> file.Some? && file.value.mimeType in ALLOWED_MIME_TYPES && file.value.size <= MAX_FILE_SIZE
    ensures file.None? ==> r == Some(NO_FILE)
    ensures file.Some? && file.value.mimeType !in ALLOWED_MIME_TYPES ==> r == Some(BAD_TYPE)
    ensures file.Some? && file.value.mimeType in ALLOWED_MIME_TYPES && file.value.size > MAX_FILE_SIZE ==>
      r == Some(TOO_LARGE)
  {
    if file.None? then Some(NO_FILE)
    else if file.value.mimeType !in ALLOWED_MIME_TYPES then Some(BAD_TYPE)
    else if file.value.size > MAX_FILE_SIZE then Some(TOO_LARGE)
    else None
  }

  /** The upload as the server sees it. */
  function AsUpload(f: File): VisionController.UploadedFile
  {
    VisionController.UploadedFile(f.mimeType, f.size, f.name)
  }

  /** Every file the server accepts passes the page's check: the page never
      refuses what the server would take. */
  lemma ServerAcceptedPassesPage(f: File)
    requires VisionController.CheckUpload(Some(AsUpload(f))).Ok?
    ensures ValidateFile(Some(f)) == None
  {
  }

  /** The converse fails: a file of an allowed type above 5 MiB and at most
      10 MiB passes the page and is then refused by the server as too large. */
  lemma PageLetsThroughWhatServerRefuses(f: File)
    requires f.mimeType in ALLOWED_MIME_TYPES
    requires VisionController.MAX_FILE_SIZE < f.size <= MAX_FILE_SIZE
    ensures ValidateFile(Some(f)) == None
    ensures VisionController.CheckUpload(Some(AsUpload(f))) == Err(VisionController.TooLarge)
  {
  }

  /** `name.split('.')[0]`: the name up to its first dot. */
  function DefaultTitle(name: string): (t: string)
    ensures StartsWith(name, t) && '.' !in t
    ensures |t| < |name| ==> name[|t|] == '.'
  {
    SplitHead(name, '.');
    Split(name, '.')[0]
  }

  /** 'a.tar.gz' gets the title 'a'. */
  lemma DefaultTitleStopsAtFirstDot()
    ensures DefaultTitle("a.tar.gz") == "a"
  {
    var t := DefaultTitle("a.tar.gz");
    assert "a.tar.gz"[1] == '.';
    assert |t| <= 1;
    assert "a.tar.gz"[0] == 'a';
  }

  /** `userAnalyses.find(a => a.id === id)`. */
  function FindAnalysis(analyses: seq<VisionController.Analysis>, id: nat): (r: Option<VisionController.Analysis>)
    ensures r.Some? <==> exists i :: 0 <= i < |analyses| && analyses[i].id == id
    ensures r.Some? ==> r.value.id == id && exists i ::
      && 0 <= i < |analyses| && analyses[i] == r.value
      && forall j :: 0 <= j < i ==> analyses[j].id != id
  {
    if analyses == [] then None
    else if analyses[0].id == id then Some(analyses[0])
    else
      var r := FindAnalysis(analyses[1..], id);
      if r.Some? then
        var i :| && 0 <= i < |analyses[1..]| && analyses[1..][i] == r.value
                 && forall j :: 0 <= j < i ==> analyses[1..][j].id != id;
        assert analyses[i + 1] == r.value;
        r
      else r
  }

  /** The page's state. */
  class AnalysisPage {
    var selectedFile: Option<File>
    var title: string
    var error: Option<string>
    var loading: bool
    var selectedAnalysis: Option<VisionController.Analysis>
    var userAnalyses: seq<VisionController.Analysis>

    constructor ()
      ensures selectedFile == None && title == [] && error == None && !loading
      ensures selectedAnalysis == None && userAnalyses == []
    {
      selectedFile := None;
      title := [];
      error := None;
      loading := false;
      selectedAnalysis := None;
      userAnalyses := [];
    }

    /** `handleFileChange`: a refused or missing file clears the selection
        and shows why; an accepted one is selected, clears the error, and
        names the analysis after the file when no title was typed. */
    method HandleFileChange(file: Option<File>)
      modifies this
      ensures file.None? ==> selectedFile == None && error == Some(NONE_SELECTED) && title == old(title)
      ensures file.Some? && ValidateFile(file).Some? ==>
        selectedFile == None && error == ValidateFile(file) && title == old(title)
      ensures file.Some? && ValidateFile(file).None? ==>
        && selectedFile == file && error == None
        && title == (if old(title) == [] then DefaultTitle(file.value.name) else old(title))
      ensures loading == old(loading) && selectedAnalysis == old(selectedAnalysis) && userAnalyses == old(userAnalyses)
    {
      if file.Some? {
        var validationError := ValidateFile(file);
        if validationError.Some? {
          error := validationError;
          selectedFile := None;
        } else {
          selectedFile := file;
          error := None;
          if title == [] {
            title := DefaultTitle(file.value.name);
          }
        }
      } else {
        selectedFile := None;
        error := Some(NONE_SELECTED);
      }
    }

    /** `checkAnalysisStatus`: selects the first analysis with that id, or
        reports it missing; loading ends either way. */
    method CheckAnalysisStatus(id: nat)
      modifies this
      ensures !loading
      ensures FindAnalysis(userAnalyses, id).Some? ==>
        selectedAnalysis == FindAnalysis(userAnalyses, id) && error == old(error)
      ensures FindAnalysis(userAnalyses, id).None? ==>
        selectedAnalysis == old(selectedAnalysis) && error == Some(NOT_FOUND)
      ensures selectedFile == old(selectedFile) && title == old(title) && userAnalyses == old(userAnalyses)
    {
      var analysis := FindAnalysis(userAnalyses, id);
      if analysis.Some? {
        selectedAnalysis := analysis;
        loading := false;
      } else {
        error := Some(NOT_FOUND);
        loading := false;
      }
    }
  }
}
