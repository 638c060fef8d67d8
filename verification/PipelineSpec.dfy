/** The document pipeline as a function of what the external tools answer: which pages
    survive, what each page becomes, and the documents assembled from them. */
module PipelineSpec {
  import opened Text
  import opened Ocr
  import opened PageWarnings

  datatype Grouping = Combined | PerPage | OtherGrouping(name: string)

  datatype Format = PDF | JPEG | TIFF | PNG | OtherFormat(name: string)

  datatype Request = Request(
    id: string,
    pages: nat,
    ocr: bool,
    languages: seq<string>,
    minConfidence: real,
    deskew: bool,
    removeBlank: bool,
    rotatePages: bool,
    grouping: Grouping,
    format: Format)

  /** A page image, by how it was made; Scan(i) is the i-th input page. Files in the
      scratch directory carry stage and page in their names, so each has one content. */
  datatype Image =
    | Scan(page: nat)
    | Deskewed(of: Image)
    | Rotated(of: Image, angle: int)
    | SearchablePdf(of: Image, languages: seq<string>)
    | Converted(of: Image, format: Format)

  datatype Content = Single(image: Image) | Joined(images: seq<Image>, format: Format)

  datatype Document = Document(
    index: nat,
    filename: string,
    content: Content,
    contentType: string,
    pageCount: nat,
    warnings: seq<string>,
    ocrConfidence: real,
    lowConfidence: bool)

  // ----- The outside world -----

  datatype Ran<+T> = Failed(message: string) | Done(value: T)

  /** The warnings about a page; their wording beyond the page prefix is a parameter. */
  datatype Note =
    | DeskewFailed
    | BlankCheckFailed
    | RemovedAsBlank
    | OrientationFailed
    | RotationFailed
    | TsvUnreadable
    | NoWordsFound
    | FirstTsvUnreadable
    | SecondPassFailed(language: string)
    | SecondTsvUnreadable(language: string)

  /** What each external command does, by page: `ocr` by page and languages, answering
      with the tsv it wrote or why that cannot be read. The first five fields say which
      binaries resolve and whether the scratch files can be written. */
  datatype Tools = Tools(
    convertFound: bool,
    tesseractFound: bool,
    qpdfFound: bool,
    scratchMade: bool,
    written: nat -> bool,
    deskew: nat -> Ran<()>,
    brightness: nat -> Ran<real>,
    orientation: nat -> Ran<int>,
    rotate: nat -> Ran<()>,
    ocr: (nat, seq<string>) -> Ran<Ran<string>>,
    convert: nat -> Ran<()>,
    join: Ran<()>,
    readable: nat -> bool,
    joinedReadable: bool,
    blankThreshold: real,
    number: string -> Option<real>,
    lower: string -> string,
    stopwords: map<string, seq<string>>,
    say: (Note, string) -> string,
    lowMessage: (real, real) -> string)

  const DEFAULT_LANGUAGES := ["deu", "eng"]
  const CANDIDATES := ["deu", "eng", "fra", "ita", "spa", "nld", "por"]
  const DEFAULT_MIN_CONFIDENCE := 80.0
  const AUTO := "auto"

  // ----- Requests -----

  predicate ValidRequest(req: Request) {
    req.pages > 0 && !req.grouping.OtherGrouping? && !req.format.OtherFormat?
  }

  ghost predicate SetUp(t: Tools, req: Request) {
    && t.convertFound
    && (req.ocr || req.rotatePages ==> t.tesseractFound)
    && (req.grouping.Combined? && req.format.PDF? ==> t.qpdfFound)
    && t.scratchMade
    && forall i: nat | i < req.pages :: t.written(i)
  }

  predicate IsAuto(languages: seq<string>) { languages == [AUTO] }

  predicate AutoDetect(req: Request) { req.ocr && IsAuto(req.languages) }

  function Languages(req: Request): seq<string> {
    if req.ocr && !AutoDetect(req) && req.languages == [] then DEFAULT_LANGUAGES else req.languages
  }

  function MinConfidence(req: Request): real {
    if req.minConfidence <= 0.0 then DEFAULT_MIN_CONFIDENCE else req.minConfidence
  }

  function Extension(format: Format): string {
    match format
    case JPEG => "jpg"
    case TIFF => "tiff"
    case PNG => "png"
    case _ => "pdf"
  }

  function ContentType(format: Format): string {
    match format
    case JPEG => "image/jpeg"
    case TIFF => "image/tiff"
    case PNG => "image/png"
    case _ => "application/pdf"
  }

  // ----- First pass: deskew, blank check, rotation -----

  function Straightened(t: Tools, req: Request, i: nat): Image {
    if req.deskew && t.deskew(i).Done? then Deskewed(Scan(i)) else Scan(i)
  }

  predicate IsBlankPage(t: Tools, req: Request, i: nat) {
    req.removeBlank && t.brightness(i).Done? && t.brightness(i).value >= t.blankThreshold
  }

  function Prepared(t: Tools, req: Request, i: nat): Image {
    var s := Straightened(t, req, i);
    if req.rotatePages && t.orientation(i).Done? && t.orientation(i).value != 0 && t.rotate(i).Done?
    then Rotated(s, t.orientation(i).value)
    else s
  }

  function DeskewWarnings(t: Tools, req: Request, i: nat): seq<string> {
    if req.deskew && t.deskew(i).Failed?
    then [Warn(i, t.say(DeskewFailed, t.deskew(i).message))] else []
  }

  function BlankWarnings(t: Tools, req: Request, i: nat): seq<string> {
    if !req.removeBlank then []
    else if t.brightness(i).Failed? then [Warn(i, t.say(BlankCheckFailed, t.brightness(i).message))]
    else if IsBlankPage(t, req, i) then [Warn(i, t.say(RemovedAsBlank, ""))]
    else []
  }

  function RotationWarnings(t: Tools, req: Request, i: nat): seq<string> {
    if !req.rotatePages || IsBlankPage(t, req, i) then []
    else if t.orientation(i).Failed?
    then [Warn(i, t.say(OrientationFailed, t.orientation(i).message))]
    else if t.orientation(i).value != 0 && t.rotate(i).Failed?
    then [Warn(i, t.say(RotationFailed, t.rotate(i).message))]
    else []
  }

  function EarlyWarnings(t: Tools, req: Request, i: nat): seq<string> {
    DeskewWarnings(t, req, i) + BlankWarnings(t, req, i) + RotationWarnings(t, req, i)
  }

  /** The pages that are not removed as blank. */
  function Keeps(t: Tools, req: Request): nat -> bool { (i: nat) => !IsBlankPage(t, req, i) }

  function EarlyOf(t: Tools, req: Request): nat -> seq<string> { (i: nat) => EarlyWarnings(t, req, i) }

  function Survivors(t: Tools, req: Request, n: nat): seq<nat> { Kept(Keeps(t, req), n) }

  function AllEarly(t: Tools, req: Request, n: nat): seq<string> { Gather(EarlyOf(t, req), Upto(n)) }

  // ----- Second pass: OCR and conversion -----

  /** The pass that was kept (by its languages), its confidence and its warnings. */
  datatype OcrPass = OcrPass(languages: seq<string>, confidence: real, warnings: seq<string>)

  function TsvMean(t: Tools, tsv: string): real { Mean(Confs(RowsOf(tsv, t.number))) }

  function NoWords(t: Tools, i: nat, tsv: string): seq<string> {
    if RowsOf(tsv, t.number) == [] then [Warn(i, t.say(NoWordsFound, ""))] else []
  }

  /** strings.Join(words, " ") in lower case, scored against the candidates. */
  function GuessedLanguage(t: Tools, tsv: string): string {
    Detected(t.lower(Join(Words(RowsOf(tsv, t.number)), ' ')), CANDIDATES, t.stopwords)
  }

  function FixedPass(t: Tools, i: nat, languages: seq<string>): Option<OcrPass> {
    match t.ocr(i, languages)
    case Failed(_) => None
    case Done(Failed(why)) => Some(OcrPass(languages, 0.0, [Warn(i, t.say(TsvUnreadable, why))]))
    case Done(Done(tsv)) => Some(OcrPass(languages, TsvMean(t, tsv), NoWords(t, i, tsv)))
  }

  /** The second pass of the automatic choice, after a first one of confidence `conf1`
      guessed `lang`: the pass to keep, and the warnings added. */
  function SecondPass(t: Tools, i: nat, conf1: real, lang: string): OcrPass {
    match t.ocr(i, [lang])
    case Failed(why) => OcrPass(DEFAULT_LANGUAGES, conf1, [Warn(i, t.say(SecondPassFailed(lang), why))])
    case Done(Failed(why)) => OcrPass(DEFAULT_LANGUAGES, conf1, [Warn(i, t.say(SecondTsvUnreadable(lang), why))])
    case Done(Done(tsv)) =>
      if TsvMean(t, tsv) > conf1 then OcrPass([lang], TsvMean(t, tsv), NoWords(t, i, tsv))
      else OcrPass(DEFAULT_LANGUAGES, conf1, NoWords(t, i, tsv))
  }

  function AutoPass(t: Tools, i: nat): Option<OcrPass> {
    match t.ocr(i, DEFAULT_LANGUAGES)
    case Failed(_) => None
    case Done(Failed(why)) => Some(OcrPass(DEFAULT_LANGUAGES, 0.0, [Warn(i, t.say(FirstTsvUnreadable, why))]))
    case Done(Done(tsv)) =>
      var lang := GuessedLanguage(t, tsv);
      if lang == "" || lang in DEFAULT_LANGUAGES
      then Some(OcrPass(DEFAULT_LANGUAGES, TsvMean(t, tsv), NoWords(t, i, tsv)))
      else
        var again := SecondPass(t, i, TsvMean(t, tsv), lang);
        Some(again.(warnings := NoWords(t, i, tsv) + again.warnings))
  }

  function PageOcr(t: Tools, req: Request, i: nat): Option<OcrPass> {
    if AutoDetect(req) then AutoPass(t, i) else FixedPass(t, i, Languages(req))
  }

  predicate PageOk(t: Tools, req: Request, i: nat) {
    && (req.ocr ==> PageOcr(t, req, i).Some?)
    && ((req.ocr && req.format.PDF?) || t.convert(i).Done?)
  }

  function PageOut(t: Tools, req: Request, i: nat): Image {
    if req.ocr && req.format.PDF? && PageOcr(t, req, i).Some?
    then SearchablePdf(Prepared(t, req, i), PageOcr(t, req, i).value.languages)
    else Converted(Prepared(t, req, i), req.format)
  }

  function OcrWarnings(t: Tools, req: Request, i: nat): seq<string> {
    if req.ocr && PageOcr(t, req, i).Some? then PageOcr(t, req, i).value.warnings else []
  }

  function Confidence(t: Tools, req: Request, i: nat): real {
    if PageOcr(t, req, i).Some? then PageOcr(t, req, i).value.confidence else 0.0
  }

  function OcrOf(t: Tools, req: Request): nat -> seq<string> { (i: nat) => OcrWarnings(t, req, i) }

  function AllOcr(t: Tools, req: Request, pages: seq<nat>): seq<string> { Gather(OcrOf(t, req), pages) }

  function AllOut(t: Tools, req: Request, pages: seq<nat>): seq<Image> {
    seq(|pages|, j requires 0 <= j < |pages| => PageOut(t, req, pages[j]))
  }

  function AllConfidences(t: Tools, req: Request, pages: seq<nat>): seq<real> {
    if req.ocr then seq(|pages|, j requires 0 <= j < |pages| => Confidence(t, req, pages[j])) else []
  }

  // ----- Assembly -----

  /** applyConfidenceGate on the confidences of the document's pages. */
  function Gated(t: Tools, req: Request, doc: Document, confidences: seq<real>): Document {
    if !req.ocr || confidences == [] then doc else
    var mean := Mean(confidences);
    var low := IsLowConfidence(mean, MinConfidence(req));
    doc.(ocrConfidence := mean, lowConfidence := low,
         warnings := doc.warnings + if low then [t.lowMessage(mean, MinConfidence(req))] else [])
  }

  function PageFilename(req: Request, j: nat): string {
    req.id + "-page-" + Decimal(j + 1) + "." + Extension(req.format)
  }

  function SingleFilename(req: Request): string { req.id + "." + Extension(req.format) }

  function PageDocument(t: Tools, req: Request, j: nat, page: nat, all: seq<string>): Document {
    Gated(t, req,
      Document(j, PageFilename(req, j), Single(PageOut(t, req, page)), ContentType(req.format), 1,
               WarningsFor(page, all), 0.0, false),
      if req.ocr then [Confidence(t, req, page)] else [])
  }

  function PageDocuments(t: Tools, req: Request, pages: seq<nat>, all: seq<string>): seq<Document> {
    seq(|pages|, j requires 0 <= j < |pages| => PageDocument(t, req, j, pages[j], all))
  }

  function CombinedDocument(t: Tools, req: Request, pages: seq<nat>, all: seq<string>): Document {
    Gated(t, req,
      Document(0, SingleFilename(req),
               if |pages| == 1 then Single(PageOut(t, req, pages[0])) else Joined(AllOut(t, req, pages), req.format),
               ContentType(req.format), |pages|, all, 0.0, false),
      AllConfidences(t, req, pages))
  }

  function Pages(t: Tools, req: Request): seq<nat> { Survivors(t, req, req.pages) }

  function AllWarnings(t: Tools, req: Request): seq<string> {
    AllEarly(t, req, req.pages) + AllOcr(t, req, Pages(t, req))
  }

  /** The documents of a successful run. */
  function Documents(t: Tools, req: Request): seq<Document> {
    if req.grouping.PerPage? then PageDocuments(t, req, Pages(t, req), AllWarnings(t, req))
    else [CombinedDocument(t, req, Pages(t, req), AllWarnings(t, req))]
  }

  ghost predicate AssemblyOk(t: Tools, req: Request, pages: seq<nat>) {
    if req.grouping.PerPage? then forall j | 0 <= j < |pages| :: t.readable(pages[j])
    else if |pages| == 1 then t.readable(pages[0])
    else (req.format.PDF? || req.format.TIFF?) && t.join.Done? && t.joinedReadable
  }

  /** When a run whose context does not expire succeeds. */
  ghost predicate Succeeds(t: Tools, req: Request) {
    && ValidRequest(req) && SetUp(t, req)
    && Pages(t, req) != []
    && (forall i | i in Pages(t, req) :: PageOk(t, req, i))
    && AssemblyOk(t, req, Pages(t, req))
  }
}
