/** What the pipeline's documents keep of the request: pages and their order, every
    warning, and one verdict on confidence whichever way pages are grouped. */
module PipelineTheorems {
  import opened Text
  import opened Ocr
  import opened PageWarnings
  import opened PipelineSpec

  // ----- Pages -----

  /** The input page an image was made from. */
  function Origin(image: Image): nat {
    match image
    case Scan(page) => page
    case Deskewed(of) => Origin(of)
    case Rotated(of, _) => Origin(of)
    case SearchablePdf(of, _) => Origin(of)
    case Converted(of, _) => Origin(of)
  }

  /** The input pages a document was made of, in order. */
  function Sources(content: Content): seq<nat> {
    match content
    case Single(image) => [Origin(image)]
    case Joined(images, _) => seq(|images|, j requires 0 <= j < |images| => Origin(images[j]))
  }

  function AllSources(docs: seq<Document>): seq<nat> {
    if docs == [] then [] else AllSources(docs[..|docs| - 1]) + Sources(docs[|docs| - 1].content)
  }

  function PageTotal(docs: seq<Document>): nat {
    if docs == [] then 0 else PageTotal(docs[..|docs| - 1]) + docs[|docs| - 1].pageCount
  }

  lemma PageKeepsItsOrigin(t: Tools, req: Request, i: nat)
    ensures Origin(PageOut(t, req, i)) == i
  {
    assert Origin(Straightened(t, req, i)) == i;
    assert Origin(Prepared(t, req, i)) == i;
  }

  ghost predicate MadeOf(doc: Document, pages: seq<nat>) {
    Sources(doc.content) == pages && doc.pageCount == |pages|
  }

  lemma PageDocumentIsOnePage(t: Tools, req: Request, j: nat, page: nat, all: seq<string>)
    ensures MadeOf(PageDocument(t, req, j, page, all), [page])
  {
    PageKeepsItsOrigin(t, req, page);
  }

  lemma CombinedDocumentIsAllPages(t: Tools, req: Request, pages: seq<nat>, all: seq<string>)
    requires pages != []
    ensures MadeOf(CombinedDocument(t, req, pages, all), pages)
  {
    forall j | 0 <= j < |pages|
      ensures Origin(AllOut(t, req, pages)[j]) == pages[j]
    {
      PageKeepsItsOrigin(t, req, pages[j]);
    }
    assert Sources(Joined(AllOut(t, req, pages), req.format)) == pages;
    PageKeepsItsOrigin(t, req, pages[0]);
    assert |pages| == 1 ==> pages == [pages[0]];
  }

  lemma SourcesSnoc(docs: seq<Document>, doc: Document)
    ensures AllSources(docs + [doc]) == AllSources(docs) + Sources(doc.content)
    ensures PageTotal(docs + [doc]) == PageTotal(docs) + doc.pageCount
  {
    assert (docs + [doc])[..|docs + [doc]| - 1] == docs;
  }

  lemma {:induction false} OnePageEach(docs: seq<Document>, pages: seq<nat>)
    requires |docs| == |pages| && forall j | 0 <= j < |docs| :: MadeOf(docs[j], [pages[j]])
    ensures AllSources(docs) == pages && PageTotal(docs) == |pages|
  {
    if docs != [] {
      var n := |docs| - 1;
      OnePageEach(docs[..n], pages[..n]);
      SourcesSnoc(docs[..n], docs[n]);
      assert docs == docs[..n] + [docs[n]] && pages == pages[..n] + [pages[n]];
      assert MadeOf(docs[n], [pages[n]]);
    }
  }

  lemma OneForAll(doc: Document, pages: seq<nat>)
    requires MadeOf(doc, pages)
    ensures AllSources([doc]) == pages && PageTotal([doc]) == |pages|
  {
    assert [doc][..0] == [];
  }

  lemma SourcesOfDocuments(t: Tools, req: Request)
    requires Pages(t, req) != []
    ensures AllSources(Documents(t, req)) == Pages(t, req) && PageTotal(Documents(t, req)) == |Pages(t, req)|
    ensures |Documents(t, req)| == if req.grouping.PerPage? then |Pages(t, req)| else 1
  {
    var pages, all := Pages(t, req), AllWarnings(t, req);
    if req.grouping.PerPage? {
      var docs := PageDocuments(t, req, pages, all);
      forall j | 0 <= j < |pages|
        ensures MadeOf(docs[j], [pages[j]])
      {
        PageDocumentIsOnePage(t, req, j, pages[j], all);
      }
      OnePageEach(docs, pages);
    } else {
      CombinedDocumentIsAllPages(t, req, pages, all);
      OneForAll(CombinedDocument(t, req, pages, all), pages);
    }
  }

  /** A successful run conserves pages and their order: the pages assembled are exactly
      those not removed as blank, in the order of the request, each once; every input
      page is either counted in a document or removed; per_page gives one document each. */
  lemma PagesAreConserved(t: Tools, req: Request)
    requires Succeeds(t, req)
    ensures StrictlyIncreasing(AllSources(Documents(t, req)))
    ensures forall i: nat :: i in AllSources(Documents(t, req)) <==> i < req.pages && !IsBlankPage(t, req, i)
    ensures PageTotal(Documents(t, req)) + CountNot(Keeps(t, req), req.pages) == req.pages
    ensures PageTotal(Documents(t, req)) == |AllSources(Documents(t, req))|
    ensures |Documents(t, req)| == if req.grouping.PerPage? then |AllSources(Documents(t, req))| else 1
  {
    SourcesOfDocuments(t, req);
    KeptInOrder(Keeps(t, req), req.pages);
    assert forall i: nat :: Keeps(t, req)(i) == !IsBlankPage(t, req, i);
  }

  // ----- When a run succeeds -----

  ghost predicate AllToolsWork(t: Tools) {
    && t.convertFound && t.tesseractFound && t.qpdfFound && t.scratchMade && t.joinedReadable && t.join.Done?
    && (forall i: nat :: t.written(i) && t.readable(i) && t.convert(i).Done?)
    && (forall i: nat :: t.deskew(i).Done? && t.brightness(i).Done? && t.orientation(i).Done? && t.rotate(i).Done?)
    && (forall i: nat, l: seq<string> :: t.ocr(i, l).Done?)
  }

  lemma WorkingToolsFinishPages(t: Tools, req: Request, i: nat)
    requires AllToolsWork(t)
    ensures PageOk(t, req, i)
  {
    assert t.ocr(i, DEFAULT_LANGUAGES).Done? && t.ocr(i, Languages(req)).Done?;
  }

  lemma WorkingToolsAssemble(t: Tools, req: Request, pages: seq<nat>)
    requires AllToolsWork(t) && ValidRequest(req) && pages != []
    ensures AssemblyOk(t, req, pages) <==>
              !(req.grouping.Combined? && (req.format.JPEG? || req.format.PNG?) && |pages| > 1)
  {}

  lemma SomePageIsKept(t: Tools, req: Request)
    ensures Pages(t, req) != [] <==> exists i: nat :: i < req.pages && !IsBlankPage(t, req, i)
  {
    var pages := Pages(t, req);
    KeptInOrder(Keeps(t, req), req.pages);
    assert forall i: nat :: i in pages <==> i < req.pages && !IsBlankPage(t, req, i);
    if pages != [] {
      assert pages[0] in pages;
    }
  }

  /** With every tool working, a valid request succeeds exactly when some page is not
      blank and it does not ask for several pages in one jpeg or png. */
  lemma SucceedsIff(t: Tools, req: Request)
    requires AllToolsWork(t) && ValidRequest(req)
    ensures Succeeds(t, req) <==>
              && (exists i: nat :: i < req.pages && !IsBlankPage(t, req, i))
              && !(req.grouping.Combined? && (req.format.JPEG? || req.format.PNG?) && |Pages(t, req)| > 1)
  {
    var pages := Pages(t, req);
    SomePageIsKept(t, req);
    forall i | i in pages
      ensures PageOk(t, req, i)
    {
      WorkingToolsFinishPages(t, req, i);
    }
    if pages != [] {
      WorkingToolsAssemble(t, req, pages);
    }
  }

  // ----- Warnings -----

  lemma EarlyAreAbout(t: Tools, req: Request, i: nat)
    ensures AllAbout(i, EarlyWarnings(t, req, i))
  {
    assert AllAbout(i, DeskewWarnings(t, req, i));
    assert AllAbout(i, BlankWarnings(t, req, i));
    assert AllAbout(i, RotationWarnings(t, req, i));
  }

  lemma OcrAreAbout(t: Tools, req: Request, i: nat)
    ensures AllAbout(i, OcrWarnings(t, req, i))
  {
    if AutoDetect(req) && AutoPass(t, i).Some? {
      AutoPassIsAbout(t, i);
    }
  }

  lemma AboutBoth(i: nat, a: seq<string>, b: seq<string>)
    requires AllAbout(i, a) && AllAbout(i, b)
    ensures AllAbout(i, a + b)
  {}

  lemma NoWordsIsAbout(t: Tools, i: nat, tsv: string)
    ensures AllAbout(i, NoWords(t, i, tsv))
  {}

  lemma SecondPassIsAbout(t: Tools, i: nat, conf1: real, lang: string)
    ensures AllAbout(i, SecondPass(t, i, conf1, lang).warnings)
  {
    forall tsv
      ensures AllAbout(i, NoWords(t, i, tsv))
    {
      NoWordsIsAbout(t, i, tsv);
    }
  }

  lemma AutoPassIsAbout(t: Tools, i: nat)
    requires AutoPass(t, i).Some?
    ensures AllAbout(i, AutoPass(t, i).value.warnings)
  {
    var first := t.ocr(i, DEFAULT_LANGUAGES).value;
    if first.Done? {
      var lang := GuessedLanguage(t, first.value);
      NoWordsIsAbout(t, i, first.value);
      SecondPassIsAbout(t, i, TsvMean(t, first.value), lang);
      AboutBoth(i, NoWords(t, i, first.value), SecondPass(t, i, TsvMean(t, first.value), lang).warnings);
    }
  }

  lemma AllAttributed(t: Tools, req: Request)
    ensures Attributed(EarlyOf(t, req)) && Attributed(OcrOf(t, req))
  {
    forall i: nat
      ensures AllAbout(i, EarlyOf(t, req)(i))
    {
      EarlyAreAbout(t, req, i);
    }
    forall i: nat
      ensures AllAbout(i, OcrOf(t, req)(i))
    {
      OcrAreAbout(t, req, i);
    }
  }

  /** Everything said about one page, whether it survives or not. */
  function OwnWarnings(t: Tools, req: Request, i: nat): seq<string> {
    EarlyOf(t, req)(i) + if Keeps(t, req)(i) then OcrOf(t, req)(i) else []
  }

  function OwnOf(t: Tools, req: Request): nat -> seq<string> { (i: nat) => OwnWarnings(t, req, i) }

  /** The prefix filter gives back exactly what was said about a page, once and in order. */
  lemma FilterIsExact(t: Tools, req: Request, i: nat)
    requires i < req.pages
    ensures WarningsFor(i, AllWarnings(t, req)) == OwnWarnings(t, req, i)
  {
    AllAttributed(t, req);
    UptoInOrder(req.pages);
    KeptInOrder(Keeps(t, req), req.pages);
    FilterGathered(i, EarlyOf(t, req), Upto(req.pages));
    FilterGathered(i, OcrOf(t, req), Kept(Keeps(t, req), req.pages));
    FilterConcat(i, AllEarly(t, req, req.pages), AllOcr(t, req, Pages(t, req)));
  }

  /** The one warning a document has that no page has said. */
  function OwnVerdict(t: Tools, req: Request, doc: Document): seq<string> {
    if doc.lowConfidence then [t.lowMessage(doc.ocrConfidence, MinConfidence(req))] else []
  }

  lemma GateAddsItsVerdict(t: Tools, req: Request, doc: Document, confidences: seq<real>)
    requires !doc.lowConfidence
    ensures var gated := Gated(t, req, doc, confidences);
            gated.warnings == doc.warnings + OwnVerdict(t, req, gated)
  {}

  /** A per_page document has the warnings of its own page, once and in order, and then
      its own verdict, and nothing else. */
  lemma PageDocumentHasItsWarnings(t: Tools, req: Request, j: nat)
    requires req.grouping.PerPage? && j < |Pages(t, req)|
    ensures j < |Documents(t, req)|
    ensures var doc := Documents(t, req)[j];
            doc.warnings == OwnWarnings(t, req, Pages(t, req)[j]) + OwnVerdict(t, req, doc)
  {
    var i, all := Pages(t, req)[j], AllWarnings(t, req);
    KeptInOrder(Keeps(t, req), req.pages);
    assert i in Pages(t, req);
    FilterIsExact(t, req, i);
    assert Documents(t, req)[j] == PageDocument(t, req, j, i, all);
    GateAddsItsVerdict(t, req,
      Document(j, PageFilename(req, j), Single(PageOut(t, req, i)), ContentType(req.format), 1,
               WarningsFor(i, all), 0.0, false),
      if req.ocr then [Confidence(t, req, i)] else []);
  }

  /** A combined document has all warnings in the order they were given, and then its verdict. */
  lemma CombinedDocumentHasAllWarnings(t: Tools, req: Request)
    requires !req.grouping.PerPage?
    ensures |Documents(t, req)| == 1
    ensures var doc := Documents(t, req)[0];
            doc.warnings == AllWarnings(t, req) + OwnVerdict(t, req, doc)
  {
    assert AllWarnings(t, req) + [] == AllWarnings(t, req);
  }

  /** Attribution is a partition: the warnings of a run are, counted with repetition,
      those of each page put together. In per_page mode each document has exactly its own
      page's share, so only those of removed pages are left out; a combined document has
      all of them. Either adds only its own verdict. */
  lemma WarningsArePartitioned(t: Tools, req: Request)
    ensures multiset(Gather(OwnOf(t, req), Upto(req.pages))) == multiset(AllWarnings(t, req))
    ensures req.grouping.PerPage? ==>
              && |Documents(t, req)| == |Pages(t, req)|
              && forall j | 0 <= j < |Pages(t, req)| ::
                   Documents(t, req)[j].warnings ==
                   OwnWarnings(t, req, Pages(t, req)[j]) + OwnVerdict(t, req, Documents(t, req)[j])
    ensures !req.grouping.PerPage? ==>
              && |Documents(t, req)| == 1
              && Documents(t, req)[0].warnings == AllWarnings(t, req) + OwnVerdict(t, req, Documents(t, req)[0])
  {
    var early, late, keep := EarlyOf(t, req), OcrOf(t, req), Keeps(t, req);
    assert Shares(early, late, keep, OwnOf(t, req));
    GatherByPage(early, late, keep, OwnOf(t, req), req.pages);
    if req.grouping.PerPage? {
      forall j | 0 <= j < |Pages(t, req)|
        ensures Documents(t, req)[j].warnings ==
                OwnWarnings(t, req, Pages(t, req)[j]) + OwnVerdict(t, req, Documents(t, req)[j])
      {
        PageDocumentHasItsWarnings(t, req, j);
      }
    } else {
      CombinedDocumentHasAllWarnings(t, req);
    }
  }

  // ----- Confidence -----

  lemma {:induction false} Extremes(vals: seq<real>) returns (low: nat, high: nat)
    requires vals != []
    ensures low < |vals| && high < |vals| && forall v | v in vals :: vals[low] <= v <= vals[high]
  {
    if |vals| == 1 {
      low, high := 0, 0;
    } else {
      var n := |vals| - 1;
      low, high := Extremes(vals[..n]);
      assert vals == vals[..n] + [vals[n]];
      if vals[n] < vals[low] { low := n; }
      if vals[n] > vals[high] { high := n; }
    }
  }

  lemma MeanOfOne(v: real)
    ensures Mean([v]) == v
  {
    assert [v][..0] == [];
    assert Sum([v]) == v;
  }

  lemma PageVerdict(t: Tools, req: Request, j: nat, page: nat, all: seq<string>)
    requires req.ocr
    ensures PageDocument(t, req, j, page, all).ocrConfidence == Confidence(t, req, page)
    ensures PageDocument(t, req, j, page, all).lowConfidence <==> Confidence(t, req, page) < MinConfidence(req)
  {
    MeanOfOne(Confidence(t, req, page));
  }

  /** A per_page document carries its own page's confidence and verdict. */
  lemma PerPageGate(t: Tools, req: Request, j: nat)
    requires req.ocr && req.grouping.PerPage? && j < |Pages(t, req)|
    ensures |Documents(t, req)| == |Pages(t, req)|
    ensures Documents(t, req)[j].ocrConfidence == Confidence(t, req, Pages(t, req)[j])
    ensures Documents(t, req)[j].lowConfidence <==> Confidence(t, req, Pages(t, req)[j]) < MinConfidence(req)
  {
    var pages, all := Pages(t, req), AllWarnings(t, req);
    PageVerdict(t, req, j, pages[j], all);
    assert PageDocuments(t, req, pages, all)[j] == PageDocument(t, req, j, pages[j], all);
  }

  lemma CombinedVerdict(t: Tools, req: Request, pages: seq<nat>, all: seq<string>)
    requires req.ocr && pages != []
    ensures var doc := CombinedDocument(t, req, pages, all);
            && doc.ocrConfidence == Mean(AllConfidences(t, req, pages))
            && (doc.lowConfidence <==> doc.ocrConfidence < MinConfidence(req))
  {}

  ghost predicate Agrees(doc: Document, docs: seq<Document>) {
    && (exists j | 0 <= j < |docs| :: docs[j].ocrConfidence <= doc.ocrConfidence)
    && (exists j | 0 <= j < |docs| :: docs[j].ocrConfidence >= doc.ocrConfidence)
    && (doc.lowConfidence ==> exists j | 0 <= j < |docs| :: docs[j].lowConfidence)
    && ((forall j | 0 <= j < |docs| :: docs[j].lowConfidence) ==> doc.lowConfidence)
  }

  lemma VerdictsAgree(doc: Document, docs: seq<Document>, vals: seq<real>, threshold: real)
    requires |docs| == |vals| > 0
    requires forall j | 0 <= j < |docs| :: docs[j].ocrConfidence == vals[j]
    requires forall j | 0 <= j < |docs| :: docs[j].lowConfidence <==> vals[j] < threshold
    requires doc.ocrConfidence == Mean(vals) && (doc.lowConfidence <==> Mean(vals) < threshold)
    ensures Agrees(doc, docs)
  {
    var low, high := Extremes(vals);
    MeanBetween(vals, vals[low], vals[high]);
    assert docs[low].ocrConfidence <= doc.ocrConfidence <= docs[high].ocrConfidence;
  }

  lemma GroupingDoesNotChangePages(t: Tools, whole: Request, single: Request)
    requires single == whole.(grouping := PerPage)
    ensures Pages(t, single) == Pages(t, whole)
    ensures forall i: nat :: Confidence(t, single, i) == Confidence(t, whole, i)
  {
    KeepsOnly(Keeps(t, whole), Keeps(t, single), whole.pages);
  }

  lemma {:induction false} KeepsOnly(a: nat -> bool, b: nat -> bool, n: nat)
    requires forall i: nat :: a(i) == b(i)
    ensures Kept(a, n) == Kept(b, n)
    decreases n
  {
    if n > 0 { KeepsOnly(a, b, n - 1); }
  }

  /** What the per_page run says of each page, in terms of the combined run. */
  lemma SingleVerdicts(t: Tools, whole: Request, single: Request, j: nat)
    requires whole.ocr && single == whole.(grouping := PerPage) && j < |Pages(t, whole)|
    ensures |Documents(t, single)| == |Pages(t, whole)|
    ensures Documents(t, single)[j].ocrConfidence == Confidence(t, whole, Pages(t, whole)[j])
    ensures Documents(t, single)[j].lowConfidence <==> Confidence(t, whole, Pages(t, whole)[j]) < MinConfidence(whole)
  {
    GroupingDoesNotChangePages(t, whole, single);
    PerPageGate(t, single, j);
  }

  /** The same pages grouped either way: the combined confidence lies between the least
      and the greatest page's; a flagged whole has a flagged page, and a whole whose
      pages are all flagged is flagged. */
  lemma GateAgreesAcrossGroupings(t: Tools, whole: Request, single: Request)
    requires whole.ocr && whole.grouping.Combined? && single == whole.(grouping := PerPage)
    requires Pages(t, whole) != []
    ensures |Documents(t, whole)| == 1 && |Documents(t, single)| == |Pages(t, whole)|
    ensures Agrees(Documents(t, whole)[0], Documents(t, single))
  {
    var pages, docs := Pages(t, whole), Documents(t, single);
    var vals := AllConfidences(t, whole, pages);
    SingleVerdicts(t, whole, single, 0);
    forall j | 0 <= j < |pages|
      ensures docs[j].ocrConfidence == vals[j] && (docs[j].lowConfidence <==> vals[j] < MinConfidence(whole))
    {
      SingleVerdicts(t, whole, single, j);
    }
    CombinedVerdict(t, whole, pages, AllWarnings(t, whole));
    VerdictsAgree(Documents(t, whole)[0], docs, vals, MinConfidence(whole));
  }

  /** The confidence of a pass is what some tsv of its own languages gives. */
  ghost predicate Earned(t: Tools, i: nat, pass: OcrPass) {
    exists tsv :: t.ocr(i, pass.languages) == Done(Done(tsv)) && pass.confidence == TsvMean(t, tsv)
  }

  lemma SecondPassNeverWorse(t: Tools, i: nat, tsv: string, lang: string)
    requires t.ocr(i, DEFAULT_LANGUAGES) == Done(Done(tsv))
    ensures var kept := SecondPass(t, i, TsvMean(t, tsv), lang);
            && Earned(t, i, kept) && kept.confidence >= TsvMean(t, tsv)
            && (kept.languages == DEFAULT_LANGUAGES || (kept.languages == [lang] && kept.confidence > TsvMean(t, tsv)))
  {
    var kept := SecondPass(t, i, TsvMean(t, tsv), lang);
    if kept.languages == [lang] {
      assert t.ocr(i, kept.languages) == Done(Done(t.ocr(i, [lang]).value.value));
    } else {
      assert t.ocr(i, kept.languages) == Done(Done(tsv));
    }
  }

  /** Auto-language never does worse than its first pass, and the confidence it reports
      is the one the kept output earned. */
  lemma AutoNeverWorse(t: Tools, i: nat)
    requires AutoPass(t, i).Some?
    ensures t.ocr(i, DEFAULT_LANGUAGES).Done?
    ensures var kept, first := AutoPass(t, i).value, t.ocr(i, DEFAULT_LANGUAGES).value;
            && (first.Failed? ==> kept.languages == DEFAULT_LANGUAGES && kept.confidence == 0.0)
            && (first.Done? ==> Earned(t, i, kept) && kept.confidence >= TsvMean(t, first.value) >= 0.0)
            && (kept.languages != DEFAULT_LANGUAGES ==>
                  && first.Done? && kept.languages == [GuessedLanguage(t, first.value)]
                  && GuessedLanguage(t, first.value) !in DEFAULT_LANGUAGES
                  && kept.confidence > TsvMean(t, first.value))
  {
    var kept, first := AutoPass(t, i).value, t.ocr(i, DEFAULT_LANGUAGES).value;
    if first.Done? {
      MeanIsNotNegative(first.value, t.number);
      SecondPassNeverWorse(t, i, first.value, GuessedLanguage(t, first.value));
      if kept.languages == DEFAULT_LANGUAGES {
        assert t.ocr(i, kept.languages) == Done(Done(first.value));
      }
    }
  }
}
