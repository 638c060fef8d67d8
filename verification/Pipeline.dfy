/** ExecPipeline.Process: the two page loops, the OCR passes and the assembly, with a
    context that may expire at any command. */
module Pipeline {
  import opened Text
  import opened Ocr
  import opened PageWarnings
  import opened PipelineSpec
  import opened PipelineTheorems
  import opened PipelineOutcomes

  datatype Sentinel = ErrUnsupportedFormat | ErrOCRFailed | ErrTimeout | ErrTool | ErrSetup

  /** An error, as the sentinels errors.Is finds in it, and its text. */
  datatype Failure = Failure(sentinels: set<Sentinel>, message: string)

  /** The context: time is counted in commands, and once expired it stays so. */
  class Context {
    const deadline: Option<nat>
    var commands: nat
    /** Some command has failed and the context was expired when it returned. */
    ghost var failedLate: bool

    predicate Expired()
      reads this
    {
      deadline.Some? && commands >= deadline.value
    }

    constructor (deadline: Option<nat>)
      ensures this.deadline == deadline && commands == 0 && !failedLate
    {
      this.deadline, this.commands, this.failedLate := deadline, 0, false;
    }
  }

  /** The slice of warnings the OCR stage appends to through a pointer. */
  class WarningList {
    var all: seq<string>

    constructor ()
      ensures all == []
    {
      all := [];
    }

    method Add(warning: string)
      modifies this
      ensures all == old(all) + [warning]
    {
      all := all + [warning];
    }
  }

  datatype PageState = PageState(originalIndex: nat, image: Image)

  const TIMED_OUT := Failure({ErrTimeout}, "pipeline: timed out")

  /** runCommand: a command cannot start once the context has expired, and a failure is
      a timeout exactly when the context is expired by then. */
  method RunCommand<T>(ctx: Context, r: Ran<T>) returns (out: Result<T, Failure>)
    modifies ctx
    ensures ctx.commands == old(ctx.commands) + 1
    ensures out.Ok? ==> r == Done(out.value) && ctx.failedLate == old(ctx.failedLate)
    ensures out.Err? && ctx.Expired() ==> out.error == TIMED_OUT && ctx.failedLate
    ensures out.Err? && !ctx.Expired() ==>
              r.Failed? && out.error == Failure({ErrTool}, r.message) && ctx.failedLate == old(ctx.failedLate)
    ensures old(ctx.Expired()) ==> out.Err?
  {
    var startedLate := ctx.Expired();
    ctx.commands := ctx.commands + 1;
    if !startedLate && r.Done? {
      return Ok(r.value);
    }
    if ctx.Expired() {
      ctx.failedLate := true;
      return Err(TIMED_OUT);
    }
    return Err(Failure({ErrTool}, r.message));
  }

  method Straighten(ctx: Context, t: Tools, req: Request, i: nat, w: WarningList) returns (image: Image)
    requires !ctx.failedLate
    modifies ctx, w
    ensures old(ctx.commands) <= ctx.commands <= old(ctx.commands) + 1 && (ctx.failedLate ==> ctx.Expired())
    ensures !ctx.failedLate ==> image == Straightened(t, req, i) && w.all == old(w.all) + DeskewWarnings(t, req, i)
  {
    image := Scan(i);
    if req.deskew {
      var ran := RunCommand(ctx, t.deskew(i));
      if ran.Err? {
        w.Add(Warn(i, t.say(DeskewFailed, ran.error.message)));
      } else {
        image := Deskewed(image);
      }
    }
  }

  /** The blank check; once something has failed late it cannot find a page blank. */
  method CheckBlank(ctx: Context, t: Tools, req: Request, i: nat, w: WarningList) returns (blank: bool)
    requires ctx.failedLate ==> ctx.Expired()
    modifies ctx, w
    ensures old(ctx.commands) <= ctx.commands <= old(ctx.commands) + 1 && (old(ctx.failedLate) ==> ctx.failedLate)
    ensures ctx.failedLate ==> ctx.Expired() && !blank
    ensures !ctx.failedLate ==> blank == IsBlankPage(t, req, i) && w.all == old(w.all) + BlankWarnings(t, req, i)
  {
    blank := false;
    if req.removeBlank {
      var mean := RunCommand(ctx, t.brightness(i));
      if mean.Err? {
        w.Add(Warn(i, t.say(BlankCheckFailed, mean.error.message)));
      } else if mean.value >= t.blankThreshold {
        w.Add(Warn(i, t.say(RemovedAsBlank, "")));
        blank := true;
      }
    }
  }

  method TurnUpright(ctx: Context, t: Tools, req: Request, i: nat, image: Image, w: WarningList) returns (turned: Image)
    requires ctx.failedLate ==> ctx.Expired()
    requires !ctx.failedLate ==> image == Straightened(t, req, i) && !IsBlankPage(t, req, i)
    modifies ctx, w
    ensures old(ctx.commands) <= ctx.commands <= old(ctx.commands) + 2 && (old(ctx.failedLate) ==> ctx.failedLate)
    ensures ctx.failedLate ==> ctx.Expired()
    ensures !ctx.failedLate ==> turned == Prepared(t, req, i) && w.all == old(w.all) + RotationWarnings(t, req, i)
  {
    turned := image;
    if req.rotatePages {
      var angle := RunCommand(ctx, t.orientation(i));
      if angle.Err? {
        w.Add(Warn(i, t.say(OrientationFailed, angle.error.message)));
      } else if angle.value != 0 {
        var ran := RunCommand(ctx, t.rotate(i));
        if ran.Err? {
          w.Add(Warn(i, t.say(RotationFailed, ran.error.message)));
        } else {
          turned := Rotated(image, angle.value);
        }
      }
    }
  }

  /** One round of the first loop. A page whose command fails late is never removed. */
  method PreparePage(ctx: Context, t: Tools, req: Request, i: nat, w: WarningList) returns (st: Option<PageState>)
    requires !ctx.failedLate
    modifies ctx, w
    ensures old(ctx.commands) <= ctx.commands <= old(ctx.commands) + 4
    ensures ctx.failedLate ==> ctx.Expired() && st.Some?
    ensures !ctx.failedLate ==> st == if IsBlankPage(t, req, i) then None else Some(PageState(i, Prepared(t, req, i)))
    ensures !ctx.failedLate ==> w.all == old(w.all) + EarlyWarnings(t, req, i)
  {
    var image := Straighten(ctx, t, req, i, w);
    var blank := CheckBlank(ctx, t, req, i, w);
    if blank {
      return None;
    }
    image := TurnUpright(ctx, t, req, i, image, w);
    return Some(PageState(i, image));
  }

  function States(t: Tools, req: Request, pages: seq<nat>): seq<PageState> {
    seq(|pages|, j requires 0 <= j < |pages| => PageState(pages[j], Prepared(t, req, pages[j])))
  }

  lemma StatesSnoc(t: Tools, req: Request, pages: seq<nat>, i: nat)
    ensures States(t, req, pages + [i]) == States(t, req, pages) + [PageState(i, Prepared(t, req, i))]
  {}

  /** What one round adds to the survivors and the warnings. */
  lemma OnePageMore(t: Tools, req: Request, i: nat, survivors: seq<PageState>, before: seq<string>)
    requires survivors == States(t, req, Survivors(t, req, i)) && before == AllEarly(t, req, i)
    ensures AllEarly(t, req, i + 1) == before + EarlyWarnings(t, req, i)
    ensures States(t, req, Survivors(t, req, i + 1)) ==
            if IsBlankPage(t, req, i) then survivors else survivors + [PageState(i, Prepared(t, req, i))]
  {
    GatherSnoc(EarlyOf(t, req), Upto(i), i);
    if IsBlankPage(t, req, i) {
      assert Survivors(t, req, i) + [] == Survivors(t, req, i);
    } else {
      StatesSnoc(t, req, Survivors(t, req, i), i);
    }
  }

  /** The first loop over the pages. */
  method FirstPass(ctx: Context, t: Tools, req: Request, w: WarningList) returns (r: Result<seq<PageState>, Failure>)
    requires !ctx.failedLate && w.all == []
    modifies ctx, w
    ensures old(ctx.commands) <= ctx.commands <= old(ctx.commands) + 4 * req.pages
    ensures ctx.failedLate ==> ctx.Expired()
    ensures r.Ok? ==> |r.value| <= req.pages
    ensures r.Err? ==> r.error == TIMED_OUT && ctx.Expired()
    ensures r.Ok? && ctx.failedLate ==> r.value != []
    ensures r.Ok? && !ctx.failedLate ==>
              r.value == States(t, req, Pages(t, req)) && w.all == AllEarly(t, req, req.pages)
  {
    var survivors: seq<PageState> := [];
    for i := 0 to req.pages
      invariant old(ctx.commands) <= ctx.commands <= old(ctx.commands) + 4 * i && |survivors| <= i
      invariant ctx.failedLate ==> ctx.Expired() && survivors != []
      invariant !ctx.failedLate ==> survivors == States(t, req, Survivors(t, req, i)) && w.all == AllEarly(t, req, i)
    {
      if ctx.Expired() {
        return Err(TIMED_OUT);
      }
      if !ctx.failedLate {
        OnePageMore(t, req, i, survivors, w.all);
      }
      var st := PreparePage(ctx, t, req, i, w);
      if st.None? {
        continue;
      }
      survivors := survivors + [st.value];
    }
    return Ok(survivors);
  }

  /** readOCRConfidence and the two reads of ocrPageAuto: a tsv's mean, with a warning
      when it holds no words. */
  method ReadConfidence(t: Tools, i: nat, tsv: string, w: WarningList) returns (mean: real, words: seq<string>)
    modifies w
    ensures mean == TsvMean(t, tsv) && words == Words(RowsOf(tsv, t.number))
    ensures w.all == old(w.all) + NoWords(t, i, tsv)
  {
    var count;
    mean, count, words := ParseTSV(tsv, t.number);
    if count == 0 {
      w.Add(Warn(i, t.say(NoWordsFound, "")));
    }
  }

  /** ocrPage with fixed languages. */
  method OcrFixed(ctx: Context, t: Tools, i: nat, languages: seq<string>, w: WarningList)
    returns (r: Result<(seq<string>, real), Failure>)
    requires !ctx.failedLate
    modifies ctx, w
    ensures ctx.commands == old(ctx.commands) + 1
    ensures ctx.failedLate ==> r.Err? && r.error.sentinels == {ErrTimeout, ErrOCRFailed} && ctx.Expired()
    ensures r.Err? ==> ErrOCRFailed in r.error.sentinels
    ensures !ctx.failedLate ==> MatchesPass(r, old(w.all), w.all, FixedPass(t, i, languages))
  {
    var ran := RunCommand(ctx, t.ocr(i, languages));
    if ran.Err? {
      return Err(Failure(ran.error.sentinels + {ErrOCRFailed}, ran.error.message));
    }
    match ran.value {
      case Failed(why) =>
        w.Add(Warn(i, t.say(TsvUnreadable, why)));
        return Ok((languages, 0.0));
      case Done(tsv) =>
        var mean, words := ReadConfidence(t, i, tsv, w);
        return Ok((languages, mean));
    }
  }

  /** The result and the appended warnings are those of the pass, or the pass failed. */
  predicate MatchesPass(r: Result<(seq<string>, real), Failure>, before: seq<string>, after: seq<string>,
                        pass: Option<OcrPass>)
  {
    match pass
    case None => r.Err?
    case Some(p) => r == Ok((p.languages, p.confidence)) && after == before + p.warnings
  }

  /** The second pass of ocrPageAuto. A late failure here has no loop behind it to notice
      the expiry, so it is reported at once. */
  method OcrAgain(ctx: Context, t: Tools, i: nat, conf1: real, lang: string, w: WarningList)
    returns (r: Result<(seq<string>, real), Failure>)
    requires !ctx.failedLate
    modifies ctx, w
    ensures ctx.commands == old(ctx.commands) + 1
    ensures ctx.failedLate ==> r == Err(TIMED_OUT) && ctx.Expired()
    ensures !ctx.failedLate ==> r.Ok?
    ensures !ctx.failedLate ==> MatchesPass(r, old(w.all), w.all, Some(SecondPass(t, i, conf1, lang)))
  {
    var ran := RunCommand(ctx, t.ocr(i, [lang]));
    if ran.Err? {
      if ctx.Expired() {
        return Err(TIMED_OUT);
      }
      w.Add(Warn(i, t.say(SecondPassFailed(lang), ran.error.message)));
      return Ok((DEFAULT_LANGUAGES, conf1));
    }
    match ran.value {
      case Failed(why) =>
        w.Add(Warn(i, t.say(SecondTsvUnreadable(lang), why)));
        return Ok((DEFAULT_LANGUAGES, conf1));
      case Done(tsv) =>
        var conf2, words := ReadConfidence(t, i, tsv, w);
        if conf2 > conf1 {
          return Ok(([lang], conf2));
        }
        return Ok((DEFAULT_LANGUAGES, conf1));
    }
  }

  method GuessLanguage(t: Tools, ghost tsv: string, words: seq<string>) returns (lang: string)
    requires words == Words(RowsOf(tsv, t.number))
    ensures lang == GuessedLanguage(t, tsv)
  {
    lang := DetectLanguage(t.lower(Join(words, ' ')), CANDIDATES, t.stopwords);
  }

  /** ocrPageAuto once the first pass has left a readable tsv. */
  method OcrOnFirst(ctx: Context, t: Tools, i: nat, tsv: string, w: WarningList)
    returns (r: Result<(seq<string>, real), Failure>)
    requires !ctx.failedLate && t.ocr(i, DEFAULT_LANGUAGES) == Done(Done(tsv))
    modifies ctx, w
    ensures old(ctx.commands) <= ctx.commands <= old(ctx.commands) + 1
    ensures ctx.failedLate ==> r == Err(TIMED_OUT) && ctx.Expired()
    ensures !ctx.failedLate ==> MatchesPass(r, old(w.all), w.all, AutoPass(t, i))
  {
    var conf1, words := ReadConfidence(t, i, tsv, w);
    var lang := GuessLanguage(t, tsv, words);
    if lang == "" || lang in DEFAULT_LANGUAGES {
      return Ok((DEFAULT_LANGUAGES, conf1));
    }
    r := OcrAgain(ctx, t, i, conf1, lang, w);
  }

  /** ocrPageAuto: OCR with the default languages, guess from its words, and OCR once
      more only when the guess is something new. */
  method OcrAuto(ctx: Context, t: Tools, i: nat, w: WarningList) returns (r: Result<(seq<string>, real), Failure>)
    requires !ctx.failedLate
    modifies ctx, w
    ensures old(ctx.commands) <= ctx.commands <= old(ctx.commands) + 2
    ensures ctx.failedLate ==> r.Err? && ErrTimeout in r.error.sentinels && ctx.Expired()
    ensures r.Err? && !ctx.failedLate ==> ErrOCRFailed in r.error.sentinels
    ensures !ctx.failedLate ==> (r.Ok? <==> t.ocr(i, ["deu", "eng"]).Done?)
    ensures r.Ok? ==> AutoKeeps(t, i, r.value.0, r.value.1)
    ensures !ctx.failedLate ==> MatchesPass(r, old(w.all), w.all, AutoPass(t, i))
  {
    AutoKeepsTheBetterPass(t, i);
    var ran := RunCommand(ctx, t.ocr(i, DEFAULT_LANGUAGES));
    if ran.Err? {
      return Err(Failure(ran.error.sentinels + {ErrOCRFailed}, ran.error.message));
    }
    match ran.value {
      case Failed(why) =>
        w.Add(Warn(i, t.say(FirstTsvUnreadable, why)));
        return Ok((DEFAULT_LANGUAGES, 0.0));
      case Done(tsv) =>
        r := OcrOnFirst(ctx, t, i, tsv, w);
    }
  }

  /** One round of the second loop: OCR, and conversion unless the PDF is already there. */
  method FinishPage(ctx: Context, t: Tools, req: Request, st: PageState, w: WarningList)
    returns (r: Result<(Image, Option<real>), Failure>)
    requires !ctx.failedLate && st.image == Prepared(t, req, st.originalIndex)
    modifies ctx, w
    ensures old(ctx.commands) <= ctx.commands <= old(ctx.commands) + 3
    ensures ctx.failedLate ==> r.Err? && ErrTimeout in r.error.sentinels && ctx.Expired()
    ensures r.Err? && !ctx.failedLate ==> ErrOCRFailed in r.error.sentinels
    ensures !ctx.failedLate ==> (r.Ok? <==> PageOk(t, req, st.originalIndex))
    ensures r.Ok? ==>
              && r.value.0 == PageOut(t, req, st.originalIndex)
              && r.value.1 == (if req.ocr then Some(Confidence(t, req, st.originalIndex)) else None)
              && w.all == old(w.all) + OcrWarnings(t, req, st.originalIndex)
  {
    var i := st.originalIndex;
    var confidence: Option<real> := None;
    if req.ocr {
      var pass;
      if AutoDetect(req) {
        pass := OcrAuto(ctx, t, i, w);
      } else {
        pass := OcrFixed(ctx, t, i, Languages(req), w);
      }
      if pass.Err? {
        return Err(pass.error);
      }
      confidence := Some(pass.value.1);
      if req.format.PDF? {
        return Ok((SearchablePdf(st.image, pass.value.0), confidence));
      }
    }
    var ran := RunCommand(ctx, t.convert(i));
    if ran.Err? {
      return Err(Failure(ran.error.sentinels + {ErrOCRFailed}, ran.error.message));
    }
    return Ok((Converted(st.image, req.format), confidence));
  }

  datatype Assembled = Assembled(images: seq<Image>, indexes: seq<nat>, confidences: seq<real>)

  function AssembledFrom(t: Tools, req: Request, pages: seq<nat>): Assembled {
    Assembled(AllOut(t, req, pages), pages, AllConfidences(t, req, pages))
  }

  /** What the second loop has produced for `pages`, given the warnings before it. */
  ghost predicate Finished(t: Tools, req: Request, pages: seq<nat>, got: Assembled, before: seq<string>,
                           now: seq<string>)
  {
    && (forall i | i in pages :: PageOk(t, req, i))
    && got == AssembledFrom(t, req, pages)
    && now == before + AllOcr(t, req, pages)
  }

  lemma Regroup<T>(a: seq<T>, b: seq<T>, c: seq<T>)
    ensures a + b + c == a + (b + c)
  {}

  lemma OutputsSnoc(t: Tools, req: Request, pages: seq<nat>, i: nat)
    ensures AllOut(t, req, pages + [i]) == AllOut(t, req, pages) + [PageOut(t, req, i)]
    ensures AllConfidences(t, req, pages + [i]) ==
            AllConfidences(t, req, pages) + if req.ocr then [Confidence(t, req, i)] else []
  {}

  lemma FinishedOneMore(t: Tools, req: Request, pages: seq<nat>, i: nat, got: Assembled, before: seq<string>,
                        now: seq<string>)
    requires Finished(t, req, pages, got, before, now) && PageOk(t, req, i)
    ensures Finished(t, req, pages + [i],
                     Assembled(got.images + [PageOut(t, req, i)], got.indexes + [i],
                               got.confidences + if req.ocr then [Confidence(t, req, i)] else []),
                     before, now + OcrWarnings(t, req, i))
  {
    GatherSnoc(OcrOf(t, req), pages, i);
    OutputsSnoc(t, req, pages, i);
    Regroup(before, AllOcr(t, req, pages), OcrWarnings(t, req, i));
  }

  /** The second loop, over the survivors. */
  method FinishPages(ctx: Context, t: Tools, req: Request, survivors: seq<PageState>, ghost pages: seq<nat>,
                     w: WarningList)
    returns (r: Result<Assembled, Failure>)
    requires ctx.failedLate ==> ctx.Expired() && survivors != []
    requires !ctx.failedLate ==> survivors == States(t, req, pages)
    modifies ctx, w
    ensures old(ctx.commands) <= ctx.commands <= old(ctx.commands) + 3 * |survivors|
    ensures ctx.failedLate ==> r.Err? && ErrTimeout in r.error.sentinels && ctx.Expired()
    ensures r.Err? && !ctx.Expired() ==>
              ErrOCRFailed in r.error.sentinels && exists i :: i in pages && !PageOk(t, req, i)
    ensures r.Ok? ==> !old(ctx.failedLate) && Finished(t, req, pages, r.value, old(w.all), w.all)
  {
    var got := Assembled([], [], []);
    for j := 0 to |survivors|
      invariant old(ctx.commands) <= ctx.commands <= old(ctx.commands) + 3 * j
      invariant ctx.failedLate ==> old(ctx.failedLate) && j == 0 && ctx.Expired()
      invariant !ctx.failedLate ==> !old(ctx.failedLate) && Finished(t, req, pages[..j], got, old(w.all), w.all)
    {
      if ctx.Expired() {
        return Err(TIMED_OUT);
      }
      var out := FinishPage(ctx, t, req, survivors[j], w);
      if out.Err? {
        assert pages[j] in pages;
        return Err(out.error);
      }
      FinishedOneMore(t, req, pages[..j], pages[j], got, old(w.all), old(w.all) + AllOcr(t, req, pages[..j]));
      assert pages[..j + 1] == pages[..j] + [pages[j]];
      got := Assembled(got.images + [out.value.0], got.indexes + [survivors[j].originalIndex],
                       got.confidences + if out.value.1.Some? then [out.value.1.value] else []);
    }
    assert pages[..|pages|] == pages;
    return Ok(got);
  }

  /** warningsFor. */
  method FilterWarnings(page: nat, all: seq<string>) returns (out: seq<string>)
    ensures out == WarningsFor(page, all)
  {
    var prefix := WarnPrefix(page);
    out := [];
    for k := 0 to |all|
      invariant out == WarningsFor(page, all[..k])
    {
      assert all[..k + 1][..k] == all[..k];
      if |all[k]| >= |prefix| && all[k][..|prefix|] == prefix {
        out := out + [all[k]];
      }
    }
    assert all[..|all|] == all;
  }

  /** applyConfidenceGate: a no-op without OCR or without confidences in range. */
  method ApplyGate(t: Tools, req: Request, doc: Document, confidences: seq<real>, from: int, to: int)
    returns (r: Document)
    ensures r == Gated(t, req, doc, if 0 <= from < to <= |confidences| then confidences[from..to] else [])
  {
    r := doc;
    if !req.ocr || from < 0 || to > |confidences| || from >= to {
      return;
    }
    var mean := MeanOf(confidences[from..to]);
    r := r.(ocrConfidence := mean, lowConfidence := IsLowConfidence(mean, MinConfidence(req)));
    if r.lowConfidence {
      r := r.(warnings := r.warnings + [t.lowMessage(mean, MinConfidence(req))]);
    }
  }

  method AssemblePage(t: Tools, req: Request, got: Assembled, ghost pages: seq<nat>, j: nat, all: seq<string>)
    returns (doc: Document)
    requires got == AssembledFrom(t, req, pages) && j < |pages|
    ensures doc == PageDocument(t, req, j, pages[j], all)
  {
    var warnings := FilterWarnings(got.indexes[j], all);
    doc := Document(j, PageFilename(req, j), Single(got.images[j]), ContentType(req.format), 1, warnings, 0.0, false);
    assert req.ocr ==> got.confidences[j..j + 1] == [Confidence(t, req, pages[j])];
    doc := ApplyGate(t, req, doc, got.confidences, j, j + 1);
  }

  /** assemble for page_grouping per_page. */
  method AssemblePerPage(t: Tools, req: Request, got: Assembled, ghost pages: seq<nat>, all: seq<string>)
    returns (r: Result<seq<Document>, Failure>)
    requires got == AssembledFrom(t, req, pages)
    ensures r.Ok? <==> forall j | 0 <= j < |pages| :: t.readable(pages[j])
    ensures r.Ok? ==> r.value == PageDocuments(t, req, pages, all)
    ensures r.Err? ==> r.error.sentinels == {ErrSetup}
  {
    var docs: seq<Document> := [];
    for j := 0 to |got.images|
      invariant |docs| == j && forall k | 0 <= k < j :: docs[k] == PageDocument(t, req, k, pages[k], all)
      invariant forall k | 0 <= k < j :: t.readable(pages[k])
    {
      if !t.readable(got.indexes[j]) {
        return Err(Failure({ErrSetup}, "read assembled page"));
      }
      var doc := AssemblePage(t, req, got, pages, j, all);
      docs := docs + [doc];
    }
    return Ok(docs);
  }

  /** assemble for page_grouping combined. */
  method AssembleCombined(ctx: Context, t: Tools, req: Request, got: Assembled, ghost pages: seq<nat>,
                          all: seq<string>)
    returns (r: Result<seq<Document>, Failure>)
    requires !ctx.failedLate && req.grouping.Combined? && pages != [] && got == AssembledFrom(t, req, pages)
    modifies ctx
    ensures old(ctx.commands) <= ctx.commands <= old(ctx.commands) + 1
    ensures ctx.failedLate ==> r.Err? && ErrTimeout in r.error.sentinels && ctx.Expired()
    ensures r.Ok? ==> AssemblyOk(t, req, pages) && r.value == [CombinedDocument(t, req, pages, all)]
    ensures r.Err? && !ctx.Expired() ==> !AssemblyOk(t, req, pages)
    ensures |pages| > 1 && !req.format.PDF? && !req.format.TIFF? ==>
              r.Err? && r.error.sentinels == {ErrUnsupportedFormat}
  {
    var content;
    if |got.images| == 1 {
      if !t.readable(got.indexes[0]) {
        return Err(Failure({ErrSetup}, "read assembled page"));
      }
      content := Single(got.images[0]);
    } else {
      if !req.format.PDF? && !req.format.TIFF? {
        return Err(Failure({ErrUnsupportedFormat}, "one page per file"));
      }
      var ran := RunCommand(ctx, t.join);
      if ran.Err? {
        return Err(Failure(ran.error.sentinels + {ErrOCRFailed}, ran.error.message));
      }
      if !t.joinedReadable {
        return Err(Failure({ErrSetup}, "read combined file"));
      }
      content := Joined(got.images, req.format);
    }
    var doc := Document(0, SingleFilename(req), content, ContentType(req.format), |got.images|, all, 0.0, false);
    doc := ApplyGate(t, req, doc, got.confidences, 0, |got.confidences|);
    assert |got.confidences| > 0 ==> got.confidences[0..|got.confidences|] == got.confidences;
    return Ok([doc]);
  }

  /** assemble. */
  method Assemble(ctx: Context, t: Tools, req: Request, got: Assembled, all: seq<string>)
    returns (r: Result<seq<Document>, Failure>)
    requires !ctx.failedLate && ValidRequest(req) && Pages(t, req) != []
    requires got == AssembledFrom(t, req, Pages(t, req)) && all == AllWarnings(t, req)
    modifies ctx
    ensures old(ctx.commands) <= ctx.commands <= old(ctx.commands) + 1
    ensures ctx.failedLate ==> r.Err? && ErrTimeout in r.error.sentinels && ctx.Expired()
    ensures r.Ok? ==> AssemblyOk(t, req, Pages(t, req)) && r.value == Documents(t, req)
    ensures r.Err? && !ctx.Expired() ==> !AssemblyOk(t, req, Pages(t, req))
  {
    if req.grouping.PerPage? {
      r := AssemblePerPage(t, req, got, Pages(t, req), all);
    } else {
      r := AssembleCombined(ctx, t, req, got, Pages(t, req), all);
    }
  }

  method AllWritten(t: Tools, pages: nat) returns (ok: bool)
    ensures ok <==> forall i: nat | i < pages :: t.written(i)
  {
    for i := 0 to pages
      invariant forall k: nat | k < i :: t.written(k)
    {
      if !t.written(i) {
        return false;
      }
    }
    return true;
  }

  /** The checks before the first page is touched. */
  method Begin(t: Tools, req: Request) returns (bad: Option<Failure>)
    ensures bad.None? <==> ValidRequest(req) && SetUp(t, req)
    ensures bad.Some? && !ValidRequest(req) ==> bad.value.sentinels == {ErrUnsupportedFormat}
    ensures bad.Some? && ValidRequest(req) ==> bad.value.sentinels == {ErrSetup}
  {
    if req.pages == 0 || req.grouping.OtherGrouping? || req.format.OtherFormat? {
      return Some(Failure({ErrUnsupportedFormat}, "unsupported request"));
    }
    if !t.convertFound
       || ((req.ocr || req.rotatePages) && !t.tesseractFound)
       || (req.grouping.Combined? && req.format.PDF? && !t.qpdfFound) {
      return Some(Failure({ErrSetup}, "not found on PATH"));
    }
    if !t.scratchMade {
      return Some(Failure({ErrSetup}, "create scratch dir"));
    }
    var written := AllWritten(t, req.pages);
    return if written then None else Some(Failure({ErrSetup}, "write input page"));
  }

  /** Process. A success is exactly the documents of the specification; a command that
      fails after the context has expired always ends in a timeout. */
  method Process(ctx: Context, t: Tools, req: Request) returns (r: Result<seq<Document>, Failure>)
    requires !ctx.failedLate
    modifies ctx
    ensures ctx.failedLate ==> r.Err? && ErrTimeout in r.error.sentinels
    ensures r.Ok? ==> Succeeds(t, req) && r.value == Documents(t, req)
    ensures r.Ok? ==>
              forall i: nat ::
                i in AllSources(r.value) <==>
                && i < req.pages
                && !(req.removeBlank && t.brightness(i).Done? && t.brightness(i).value >= t.blankThreshold)
    ensures !ctx.Expired() ==> (r.Ok? <==> Succeeds(t, req))
    ensures old(ctx.commands) <= ctx.commands <= old(ctx.commands) + 7 * req.pages + 1
    ensures !ValidRequest(req) ==> r.Err? && r.error.sentinels == {ErrUnsupportedFormat}
    ensures ValidRequest(req) && !SetUp(t, req) ==> r.Err? && r.error.sentinels == {ErrSetup}
    ensures ValidRequest(req) && SetUp(t, req) && !ctx.Expired() && Pages(t, req) == [] ==>
              r.Err? && r.error.sentinels == {ErrOCRFailed}
    ensures && ValidRequest(req) && SetUp(t, req) && !ctx.Expired()
            && (exists i :: i in Pages(t, req) && !PageOk(t, req, i)) ==>
              r.Err? && ErrOCRFailed in r.error.sentinels
  {
    var bad := Begin(t, req);
    if bad.Some? {
      return Err(bad.value);
    }
    var w := new WarningList();
    var survivors := FirstPass(ctx, t, req, w);
    if survivors.Err? {
      return Err(survivors.error);
    }
    ghost var pages := Pages(t, req);
    if survivors.value == [] {
      return Err(Failure({ErrOCRFailed}, "every page was removed as blank"));
    }
    var got := FinishPages(ctx, t, req, survivors.value, pages, w);
    if got.Err? {
      return Err(got.error);
    }
    assert w.all == AllWarnings(t, req);
    r := Assemble(ctx, t, req, got.value, w.all);
    if r.Ok? {
      BlankPagesAreRemoved(t, req);
    }
  }
}
