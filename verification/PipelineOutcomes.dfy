/** What a run makes of a request, said over what the external tools answer and nothing
    else: which pages go, what each page has been through, which OCR pass is kept, what
    is said about a page, how documents are labelled, and when there is a result at all. */
module PipelineOutcomes {
  import opened Text
  import opened Ocr
  import opened PageWarnings
  import opened PipelineSpec
  import opened PipelineTheorems

  // ----- Which pages -----

  /** A page is removed if and only if that was asked for, its brightness could be read
      and lies at or above the threshold. */
  lemma BlankPagesAreRemoved(t: Tools, req: Request)
    requires Succeeds(t, req)
    ensures forall i: nat ::
              i in AllSources(Documents(t, req)) <==>
              && i < req.pages
              && !(req.removeBlank && t.brightness(i).Done? && t.brightness(i).value >= t.blankThreshold)
  {
    PagesAreConserved(t, req);
  }

  // ----- What a page has been through -----

  datatype Step = Straighten | Turn(angle: int) | Recognise(languages: seq<string>) | Convert(format: Format)

  /** The history of an image, first step first. */
  function Steps(image: Image): seq<Step> {
    match image
    case Scan(_) => []
    case Deskewed(of) => Steps(of) + [Straighten]
    case Rotated(of, angle) => Steps(of) + [Turn(angle)]
    case SearchablePdf(of, languages) => Steps(of) + [Recognise(languages)]
    case Converted(of, format) => Steps(of) + [Convert(format)]
  }

  function Images(content: Content): seq<Image> {
    match content
    case Single(image) => [image]
    case Joined(images, _) => images
  }

  ghost predicate ImageOfPage(t: Tools, req: Request, image: Image, i: nat) {
    i in Pages(t, req) && image == PageOut(t, req, i)
  }

  lemma PageDocumentHasItsPage(t: Tools, req: Request, doc: Document, image: Image) returns (j: nat)
    requires req.grouping.PerPage? && doc in Documents(t, req) && image in Images(doc.content)
    ensures j < |Pages(t, req)| && image == PageOut(t, req, Pages(t, req)[j])
  {
    j :| 0 <= j < |Pages(t, req)| && doc == Documents(t, req)[j];
  }

  lemma CombinedDocumentHasItsPages(t: Tools, req: Request, image: Image) returns (j: nat)
    requires Pages(t, req) != []
    requires image in Images(CombinedDocument(t, req, Pages(t, req), AllWarnings(t, req)).content)
    ensures j < |Pages(t, req)| && image == PageOut(t, req, Pages(t, req)[j])
  {
    if |Pages(t, req)| == 1 {
      j := 0;
    } else {
      assert image in AllOut(t, req, Pages(t, req));
      j :| 0 <= j < |Pages(t, req)| && image == AllOut(t, req, Pages(t, req))[j];
    }
  }

  lemma ImagesAreOfPages(t: Tools, req: Request, doc: Document, image: Image) returns (i: nat)
    requires Pages(t, req) != [] && doc in Documents(t, req) && image in Images(doc.content)
    ensures ImageOfPage(t, req, image, i) && i == Origin(image)
  {
    var j;
    if req.grouping.PerPage? {
      j := PageDocumentHasItsPage(t, req, doc, image);
    } else {
      j := CombinedDocumentHasItsPages(t, req, image);
    }
    i := Pages(t, req)[j];
    PageKeepsItsOrigin(t, req, i);
  }

  /** The languages of a fixed request. */
  function Asked(req: Request): seq<string> { if req.languages == [] then ["deu", "eng"] else req.languages }

  lemma StepsOfPage(t: Tools, req: Request, i: nat)
    requires req.ocr ==> PageOcr(t, req, i).Some?
    ensures Steps(PageOut(t, req, i)) ==
            (if req.deskew && t.deskew(i).Done? then [Straighten] else [])
            + (if && req.rotatePages && t.orientation(i).Done? && t.orientation(i).value != 0
                  && t.rotate(i).Done?
               then [Turn(t.orientation(i).value)] else [])
            + [if req.ocr && req.format.PDF? then Recognise(PageOcr(t, req, i).value.languages)
               else Convert(req.format)]
  {
    var asked := if req.deskew && t.deskew(i).Done? then [Straighten] else [];
    assert Steps(Straightened(t, req, i)) == asked;
    assert asked + [] == asked;
  }

  /** The last step of a page: a searchable PDF if OCR and PDF are asked for, in the
      languages of the kept pass, and the wanted format otherwise. */
  ghost predicate Finishes(t: Tools, req: Request, i: nat, last: Step) {
    if !req.ocr || !req.format.PDF? then last == Convert(req.format)
    else if req.languages != ["auto"] then last == Recognise(Asked(req))
    else last.Recognise? && AutoKeeps(t, i, last.languages, Confidence(t, req, i))
  }

  lemma LastStepOfPage(t: Tools, req: Request, i: nat)
    requires req.ocr ==> PageOcr(t, req, i).Some?
    ensures Finishes(t, req, i, if req.ocr && req.format.PDF? then Recognise(PageOcr(t, req, i).value.languages)
                                else Convert(req.format))
  {
    if req.ocr {
      PageOcrMeans(t, req, i);
    }
  }

  /** Every delivered image is its page: straightened exactly when asked and deskewing
      worked, then turned by the detected angle exactly when asked, the angle is not 0 and
      turning worked, then finished. */
  lemma PagesAreTreatedAsAsked(t: Tools, req: Request, doc: Document, image: Image) returns (last: Step)
    requires Succeeds(t, req) && doc in Documents(t, req) && image in Images(doc.content)
    ensures var i := Origin(image);
            && Finishes(t, req, i, last)
            && Steps(image) ==
               (if req.deskew && t.deskew(i).Done? then [Straighten] else [])
               + (if && req.rotatePages && t.orientation(i).Done? && t.orientation(i).value != 0
                     && t.rotate(i).Done?
                  then [Turn(t.orientation(i).value)] else [])
               + [last]
  {
    var i := ImagesAreOfPages(t, req, doc, image);
    assert PageOk(t, req, i);
    StepsOfPage(t, req, i);
    LastStepOfPage(t, req, i);
    last := if req.ocr && req.format.PDF? then Recognise(PageOcr(t, req, i).value.languages) else Convert(req.format);
  }

  // ----- Which OCR pass is kept -----

  /** The mean of a tsv: the sum of its word rows' confidences shared out among them, and 0
      when it has none. */
  lemma TsvMeanIsTheShare(t: Tools, tsv: string)
    ensures var rows := RowsOf(tsv, t.number);
            && |Confs(rows)| == |rows| && (forall k | 0 <= k < |rows| :: Confs(rows)[k] == rows[k].conf)
            && (rows == [] ==> TsvMean(t, tsv) == 0.0)
            && (rows != [] ==> TsvMean(t, tsv) * (|rows| as real) == Sum(Confs(rows)))
  {
    ConfsOfRows(RowsOf(tsv, t.number));
    MeanIsTheShare(Confs(RowsOf(tsv, t.number)));
  }

  /** The words of a tsv, scored against the candidates: the earliest of greatest positive
      score, or "" when none scores. */
  lemma GuessIsEarliestBest(t: Tools, tsv: string)
    ensures var lang, fields := GuessedLanguage(t, tsv), Fields(t.lower(Join(Words(RowsOf(tsv, t.number)), ' ')));
            var candidates := ["deu", "eng", "fra", "ita", "spa", "nld", "por"];
            && (lang == "" <==> forall c | c in candidates :: Score(fields, candidates, t.stopwords, c) == 0)
            && (lang != "" ==>
                  exists k :: IsEarliestBest(fields, candidates, t.stopwords, k) && candidates[k] == lang)
  {
    DetectedIsEarliestBest(t.lower(Join(Words(RowsOf(tsv, t.number)), ' ')), CANDIDATES, t.stopwords);
  }

  /** A second pass is worth trying: the first one's words point to a language it did not use. */
  predicate PointsElsewhere(t: Tools, one: string) { GuessedLanguage(t, one) !in ["", "deu", "eng"] }

  /** The second pass was made, can be read and is strictly better than the first. */
  ghost predicate SecondIsBetter(t: Tools, i: nat, one: string, two: string) {
    && PointsElsewhere(t, one)
    && t.ocr(i, [GuessedLanguage(t, one)]) == Done(Done(two))
    && TsvMean(t, two) > TsvMean(t, one)
  }

  /** What the automatic choice reports: 0 for a first pass that cannot be read, the
      second pass if it is better, and the first one in every other case. */
  ghost predicate AutoKeeps(t: Tools, i: nat, languages: seq<string>, confidence: real) {
    && t.ocr(i, ["deu", "eng"]).Done?
    && (t.ocr(i, ["deu", "eng"]).value.Failed? ==> languages == ["deu", "eng"] && confidence == 0.0)
    && forall one | t.ocr(i, ["deu", "eng"]) == Done(Done(one)) ::
         && (forall two | SecondIsBetter(t, i, one, two) ::
               languages == [GuessedLanguage(t, one)] && confidence == TsvMean(t, two))
         && ((forall two :: !SecondIsBetter(t, i, one, two)) ==>
               languages == ["deu", "eng"] && confidence == TsvMean(t, one))
  }

  /** The automatic choice: when the first pass leaves a readable tsv whose words point to
      another language, and OCR in that language leaves a readable one, the second pass is
      kept if and only if its mean is greater; in every other case the first pass is. */
  lemma AutoKeepsTheBetterPass(t: Tools, i: nat)
    ensures AutoPass(t, i).Some? <==> t.ocr(i, ["deu", "eng"]).Done?
    ensures AutoPass(t, i).Some? ==> AutoKeeps(t, i, AutoPass(t, i).value.languages, AutoPass(t, i).value.confidence)
  {
    assert DEFAULT_LANGUAGES == ["deu", "eng"];
    if t.ocr(i, ["deu", "eng"]).Done? && t.ocr(i, ["deu", "eng"]).value.Done? {
      var one := t.ocr(i, ["deu", "eng"]).value.value;
      var kept, lang := AutoPass(t, i).value, GuessedLanguage(t, one);
      assert PointsElsewhere(t, one) <==> !(lang == "" || lang in DEFAULT_LANGUAGES);
      if kept.languages != DEFAULT_LANGUAGES {
        assert SecondIsBetter(t, i, one, t.ocr(i, [lang]).value.value);
      }
    }
  }

  /** The pass of a page, with fixed languages or chosen automatically. */
  lemma PageOcrMeans(t: Tools, req: Request, i: nat)
    requires req.ocr
    ensures PageOcr(t, req, i).Some? <==>
              t.ocr(i, if req.languages == ["auto"] then ["deu", "eng"] else Asked(req)).Done?
    ensures PageOcr(t, req, i).Some? && req.languages == ["auto"] ==>
              AutoKeeps(t, i, PageOcr(t, req, i).value.languages, Confidence(t, req, i))
    ensures PageOcr(t, req, i).Some? && req.languages != ["auto"] ==>
              var read := t.ocr(i, Asked(req)).value;
              && PageOcr(t, req, i).value.languages == Asked(req)
              && Confidence(t, req, i) == if read.Done? then TsvMean(t, read.value) else 0.0
  {
    AutoKeepsTheBetterPass(t, i);
    assert AutoDetect(req) <==> req.languages == ["auto"];
    assert !AutoDetect(req) ==> Languages(req) == Asked(req);
  }

  // ----- What is said about a page -----

  function Says(i: nat, text: string): string { "page " + Decimal(i) + ": " + text }

  predicate GoesAsBlank(t: Tools, req: Request, i: nat) {
    req.removeBlank && t.brightness(i).Done? && t.brightness(i).value >= t.blankThreshold
  }

  /** Before OCR: a failed deskewing, then a failed blank check or the removal, then for a
      page that stays a failed orientation check or, for an angle other than 0, a failed
      turn; nothing else. */
  lemma SaidBeforeOcr(t: Tools, req: Request, i: nat)
    ensures EarlyWarnings(t, req, i) ==
            (if req.deskew && t.deskew(i).Failed? then [Says(i, t.say(DeskewFailed, t.deskew(i).message))] else [])
            + (if !req.removeBlank then []
               else if t.brightness(i).Failed? then [Says(i, t.say(BlankCheckFailed, t.brightness(i).message))]
               else if t.brightness(i).value >= t.blankThreshold then [Says(i, t.say(RemovedAsBlank, ""))]
               else [])
            + (if !req.rotatePages || GoesAsBlank(t, req, i) then []
               else if t.orientation(i).Failed?
               then [Says(i, t.say(OrientationFailed, t.orientation(i).message))]
               else if t.orientation(i).value != 0 && t.rotate(i).Failed?
               then [Says(i, t.say(RotationFailed, t.rotate(i).message))]
               else [])
  {}

  /** One warning when a tsv holds no word row. */
  function SaidOfWords(t: Tools, i: nat, tsv: string): seq<string> {
    if RowsOf(tsv, t.number) == [] then [Says(i, t.say(NoWordsFound, ""))] else []
  }

  /** With fixed languages: the tsv could not be read, or it holds no words. */
  lemma SaidInFixedOcr(t: Tools, req: Request, i: nat)
    requires req.ocr && req.languages != ["auto"] && t.ocr(i, Asked(req)).Done?
    ensures OcrWarnings(t, req, i) ==
            match t.ocr(i, Asked(req)).value
            case Failed(why) => [Says(i, t.say(TsvUnreadable, why))]
            case Done(tsv) => SaidOfWords(t, i, tsv)
  {
    assert !AutoDetect(req) && Languages(req) == Asked(req);
  }

  /** Choosing automatically: the first tsv could not be read, or what its words and then
      the second pass, if there is one, leave to say. */
  lemma SaidInAutomaticOcr(t: Tools, req: Request, i: nat)
    requires req.ocr && req.languages == ["auto"] && t.ocr(i, ["deu", "eng"]).Done?
    ensures OcrWarnings(t, req, i) ==
            match t.ocr(i, ["deu", "eng"]).value
            case Failed(why) => [Says(i, t.say(FirstTsvUnreadable, why))]
            case Done(one) =>
              SaidOfWords(t, i, one)
              + if !PointsElsewhere(t, one) then [] else
                var lang := GuessedLanguage(t, one);
                match t.ocr(i, [lang])
                case Failed(why) => [Says(i, t.say(SecondPassFailed(lang), why))]
                case Done(Failed(why)) => [Says(i, t.say(SecondTsvUnreadable(lang), why))]
                case Done(Done(two)) => SaidOfWords(t, i, two)
  {
    assert AutoDetect(req) && DEFAULT_LANGUAGES == ["deu", "eng"];
    var first := t.ocr(i, ["deu", "eng"]).value;
    if first.Done? {
      assert SaidOfWords(t, i, first.value) == NoWords(t, i, first.value);
      assert SaidOfWords(t, i, first.value) + [] == SaidOfWords(t, i, first.value);
    }
  }

  // ----- How documents are labelled and flagged -----

  predicate Typed(doc: Document, format: Format, stem: string) {
    match format
    case PDF => doc.filename == stem + ".pdf" && doc.contentType == "application/pdf"
    case JPEG => doc.filename == stem + ".jpg" && doc.contentType == "image/jpeg"
    case TIFF => doc.filename == stem + ".tiff" && doc.contentType == "image/tiff"
    case PNG => doc.filename == stem + ".png" && doc.contentType == "image/png"
    case OtherFormat(_) => false
  }

  /** The threshold a request sets; without one it is 80. */
  function Threshold(req: Request): real { if req.minConfidence <= 0.0 then 80.0 else req.minConfidence }

  /** Without OCR a document has no confidence and no verdict; with it the confidence is
      the mean over its pages and the verdict says whether that is below the threshold. */
  predicate Flagged(t: Tools, req: Request, doc: Document, pages: seq<nat>) {
    if req.ocr then
      && doc.ocrConfidence == Mean(seq(|pages|, k requires 0 <= k < |pages| => Confidence(t, req, pages[k])))
      && (doc.lowConfidence <==> doc.ocrConfidence < Threshold(req))
    else doc.ocrConfidence == 0.0 && !doc.lowConfidence
  }

  lemma GateFlags(t: Tools, req: Request, doc: Document, pages: seq<nat>, confidences: seq<real>)
    requires pages != [] && doc.ocrConfidence == 0.0 && !doc.lowConfidence
    requires req.ocr ==> confidences == seq(|pages|, k requires 0 <= k < |pages| => Confidence(t, req, pages[k]))
    ensures Flagged(t, req, Gated(t, req, doc, confidences), pages)
  {}

  lemma PageDocumentIsFlagged(t: Tools, req: Request, j: nat, page: nat, all: seq<string>)
    ensures Flagged(t, req, PageDocument(t, req, j, page, all), [page])
  {
    assert seq(1, k requires 0 <= k < 1 => Confidence(t, req, [page][k])) == [Confidence(t, req, page)];
    GateFlags(t, req,
      Document(j, PageFilename(req, j), Single(PageOut(t, req, page)), ContentType(req.format), 1,
               WarningsFor(page, all), 0.0, false),
      [page], if req.ocr then [Confidence(t, req, page)] else []);
  }

  lemma CombinedDocumentIsFlagged(t: Tools, req: Request, pages: seq<nat>, all: seq<string>)
    requires pages != []
    ensures Flagged(t, req, CombinedDocument(t, req, pages, all), pages)
  {
    GateFlags(t, req,
      Document(0, SingleFilename(req),
               if |pages| == 1 then Single(PageOut(t, req, pages[0])) else Joined(AllOut(t, req, pages), req.format),
               ContentType(req.format), |pages|, all, 0.0, false),
      pages, AllConfidences(t, req, pages));
  }

  /** Numbered, named and typed for the request, and flagged by the pages it is made of. */
  predicate Labelled(t: Tools, req: Request, doc: Document, j: nat) {
    && doc.index == j
    && Typed(doc, req.format, req.id + if req.grouping.PerPage? then "-page-" + Decimal(j + 1) else "")
    && doc.pageCount == |Sources(doc.content)|
    && Flagged(t, req, doc, Sources(doc.content))
    && (doc.content.Joined? ==> doc.content.format == req.format && |doc.content.images| > 1)
  }

  lemma NamedAndTyped(req: Request, doc: Document, stem: string)
    requires !req.format.OtherFormat? && doc.contentType == ContentType(req.format)
    requires doc.filename == stem + "." + Extension(req.format)
    ensures Typed(doc, req.format, stem)
  {
    assert doc.filename == stem + ("." + Extension(req.format));
  }

  lemma PageDocumentIsLabelled(t: Tools, req: Request, j: nat, page: nat, all: seq<string>)
    requires req.grouping.PerPage? && !req.format.OtherFormat?
    ensures Labelled(t, req, PageDocument(t, req, j, page, all), j)
  {
    var doc := PageDocument(t, req, j, page, all);
    PageDocumentIsOnePage(t, req, j, page, all);
    PageDocumentIsFlagged(t, req, j, page, all);
    var stem := req.id + ("-page-" + Decimal(j + 1));
    assert stem == req.id + "-page-" + Decimal(j + 1);
    NamedAndTyped(req, doc, stem);
  }

  lemma CombinedDocumentIsLabelled(t: Tools, req: Request, pages: seq<nat>, all: seq<string>)
    requires !req.grouping.PerPage? && !req.format.OtherFormat? && pages != []
    ensures Labelled(t, req, CombinedDocument(t, req, pages, all), 0)
  {
    CombinedDocumentIsAllPages(t, req, pages, all);
    CombinedDocumentIsFlagged(t, req, pages, all);
    assert req.id + "" == req.id;
    NamedAndTyped(req, CombinedDocument(t, req, pages, all), req.id);
  }

  lemma LabelsOfDocuments(t: Tools, req: Request)
    requires Pages(t, req) != [] && !req.format.OtherFormat?
    ensures forall j | 0 <= j < |Documents(t, req)| :: Labelled(t, req, Documents(t, req)[j], j)
  {
    var pages, all := Pages(t, req), AllWarnings(t, req);
    if req.grouping.PerPage? {
      forall j | 0 <= j < |pages|
        ensures Labelled(t, req, PageDocuments(t, req, pages, all)[j], j)
      {
        PageDocumentIsLabelled(t, req, j, pages[j], all);
      }
    } else {
      CombinedDocumentIsLabelled(t, req, pages, all);
    }
  }

  /** Documents are numbered in order, named and typed for the request, and flagged by the
      pages they are made of. */
  lemma DocumentsAreLabelled(t: Tools, req: Request)
    requires Succeeds(t, req)
    ensures forall j | 0 <= j < |Documents(t, req)| :: Labelled(t, req, Documents(t, req)[j], j)
  {
    LabelsOfDocuments(t, req);
  }

  // ----- When a run succeeds -----

  /** The page is not removed as blank. */
  predicate Stays(t: Tools, req: Request, i: nat) { i < req.pages && !GoesAsBlank(t, req, i) }

  /** The tools a page needs after the first loop: one OCR run, and a conversion unless
      OCR has already made the PDF. */
  predicate CanBeFinished(t: Tools, req: Request, i: nat) {
    && (req.ocr ==> t.ocr(i, if req.languages == ["auto"] then ["deu", "eng"] else Asked(req)).Done?)
    && (!(req.ocr && req.format.PDF?) ==> t.convert(i).Done?)
  }

  ghost predicate SeveralStay(t: Tools, req: Request) {
    exists i: nat, j: nat :: i < j && Stays(t, req, i) && Stays(t, req, j)
  }

  lemma PagesStay(t: Tools, req: Request)
    ensures forall i: nat :: i in Pages(t, req) <==> Stays(t, req, i)
    ensures |Pages(t, req)| > 1 <==> SeveralStay(t, req)
  {
    var pages := Pages(t, req);
    KeptInOrder(Keeps(t, req), req.pages);
    assert forall i: nat :: Keeps(t, req)(i) == !GoesAsBlank(t, req, i);
    assert forall i: nat :: i in pages <==> Stays(t, req, i);
    if |pages| > 1 {
      assert pages[0] in pages && pages[1] in pages && pages[0] < pages[1];
      assert Stays(t, req, pages[0]) && Stays(t, req, pages[1]);
    }
    if SeveralStay(t, req) {
      var i: nat, j: nat :| i < j && Stays(t, req, i) && Stays(t, req, j);
      assert i in pages && j in pages;
    }
  }

  lemma PagesCanBeFinished(t: Tools, req: Request, i: nat)
    ensures PageOk(t, req, i) <==> CanBeFinished(t, req, i)
  {
    if req.ocr {
      PageOcrMeans(t, req, i);
    }
  }

  /** A run whose context does not expire succeeds if and only if the request has pages, a
      known grouping and a known format; the binaries it needs are there and its scratch
      files can be written; some page stays; every page that stays can be finished; and
      the result can be read, after joining when several pages share one document, which
      only PDF and TIFF allow. */
  lemma SucceedsFromTools(t: Tools, req: Request)
    ensures Succeeds(t, req) <==>
              && req.pages > 0
              && (req.grouping == Combined || req.grouping == PerPage)
              && req.format in {PDF, JPEG, TIFF, PNG}
              && t.convertFound && (req.ocr || req.rotatePages ==> t.tesseractFound)
              && (req.grouping == Combined && req.format == PDF ==> t.qpdfFound)
              && t.scratchMade && (forall i: nat | i < req.pages :: t.written(i))
              && (exists i: nat :: Stays(t, req, i))
              && (forall i: nat | Stays(t, req, i) :: CanBeFinished(t, req, i))
              && (if req.grouping == Combined && SeveralStay(t, req)
                  then req.format in {PDF, TIFF} && t.join.Done? && t.joinedReadable
                  else forall i: nat | Stays(t, req, i) :: t.readable(i))
  {
    var pages := Pages(t, req);
    PagesStay(t, req);
    forall i: nat
      ensures PageOk(t, req, i) <==> CanBeFinished(t, req, i)
    {
      PagesCanBeFinished(t, req, i);
    }
    if pages != [] {
      assert pages[0] in pages && Stays(t, req, pages[0]);
    }
    assert ValidRequest(req) <==> req.pages > 0 && (req.grouping == Combined || req.grouping == PerPage)
                                  && req.format in {PDF, JPEG, TIFF, PNG};
    if ValidRequest(req) && pages != [] {
      AssemblyNeeds(t, req);
    }
  }

  lemma AssemblyNeeds(t: Tools, req: Request)
    requires ValidRequest(req) && Pages(t, req) != []
    ensures AssemblyOk(t, req, Pages(t, req)) <==>
              if req.grouping == Combined && |Pages(t, req)| > 1
              then req.format in {PDF, TIFF} && t.join.Done? && t.joinedReadable
              else forall i | i in Pages(t, req) :: t.readable(i)
  {}
}
