/** From the pipeline's documents to the bridge's files: the names documents are given,
    and what a response can do to the directory it is read into. */
module EndToEnd {
  import opened Text
  import opened PipelineSpec
  import opened Wire
  import opened Delivery
  import opened PageLeg

  // ----- The settings of a request -----

  function GroupingOf(name: string): Grouping {
    if name == "combined" then Combined else if name == "per_page" then PerPage else OtherGrouping(name)
  }

  function FormatOf(name: string): Format {
    if name == "pdf" then PDF
    else if name == "jpeg" then JPEG
    else if name == "tiff" then TIFF
    else if name == "png" then PNG
    else OtherFormat(name)
  }

  /** handleProcess: the pipeline's request for a decoded control payload and its pages. */
  function RequestFor(control: Control, pages: seq<Bytes>): Request {
    Request(control.requestId, |pages|, control.ocr, control.languages, control.minConfidence, control.deskew,
            control.removeBlank, control.rotatePages, GroupingOf(control.pageGrouping), FormatOf(control.outputFormat))
  }

  /** What the bridge asks for is what the pipeline is asked to do: whatever arrives of a
      request, if it is accepted then every setting and every page is as it was sent. */
  lemma SettingsReachThePipeline(req: ProcessRequest, codec: Codec<Control>, pages: seq<Bytes>, arrived: Stream)
    requires Carries(codec, PayloadOf(req))
    requires Arrives(arrived, RequestStream(codec, PayloadOf(req), pages)) && Complete(codec, arrived)
    ensures var got := RequestFor(codec.decode(arrived.parts[0].body).value, BodiesOf(arrived.parts[1..]));
            && got.id == req.requestId && got.pages == |pages| && BodiesOf(arrived.parts[1..]) == pages
            && got.ocr == req.ocr && got.languages == req.languages && got.minConfidence == req.minConfidence
            && got.deskew == req.deskew && got.removeBlank == req.removeBlank && got.rotatePages == req.rotatePages
            && (got.grouping == Combined <==> req.pageGrouping == "combined")
            && (got.grouping == PerPage <==> req.pageGrouping == "per_page")
            && (got.format == PDF <==> req.outputFormat == "pdf")
            && (got.format == JPEG <==> req.outputFormat == "jpeg")
            && (got.format == TIFF <==> req.outputFormat == "tiff")
            && (got.format == PNG <==> req.outputFormat == "png")
  {
    var sent := RequestStream(codec, PayloadOf(req), pages);
    assert arrived == sent;
    assert BodiesOf(sent.parts[1..]) == pages;
  }

  // ----- The names of documents -----

  predicate NoSeparators(id: string) { '/' !in id && '\\' !in id }

  /** newRequestID: the hexadecimal text of random bytes. */
  predicate IsHexId(id: string) { id != "" && forall c | c in id :: IsLowerHexDigit(c) }

  lemma DigitsAreNoSeparators(n: nat)
    ensures NoSeparators(Decimal(n))
  {}

  lemma PageNamesAreDistinct(req: Request, i: nat, j: nat)
    requires PageFilename(req, i) == PageFilename(req, j)
    ensures i == j
  {
    var head := req.id + "-page-";
    var ext := Extension(req.format);
    assert PageFilename(req, i) == head + (Decimal(i + 1) + ['.'] + ext);
    assert PageFilename(req, j) == head + (Decimal(j + 1) + ['.'] + ext);
    assert (head + (Decimal(i + 1) + ['.'] + ext))[|head|..] == Decimal(i + 1) + ['.'] + ext;
    assert (head + (Decimal(j + 1) + ['.'] + ext))[|head|..] == Decimal(j + 1) + ['.'] + ext;
    DecimalDelimited(i + 1, j + 1, '.', ext, ext);
  }

  ghost predicate NamedFor(req: Request, name: string) {
    name == SingleFilename(req) || exists j: nat :: name == PageFilename(req, j)
  }

  ghost predicate WellNamed(req: Request, docs: seq<Document>) {
    && (forall j | 0 <= j < |docs| :: NamedFor(req, docs[j].filename))
    && (forall i, j | 0 <= i < j < |docs| :: docs[i].filename != docs[j].filename)
  }

  /** The names a run gives its documents come from the request id and are distinct. */
  lemma DocumentsAreWellNamed(t: Tools, req: Request)
    ensures WellNamed(req, Documents(t, req))
  {
    var docs := Documents(t, req);
    if req.grouping.PerPage? {
      assert forall j | 0 <= j < |docs| :: docs[j].filename == PageFilename(req, j);
      forall i, j | 0 <= i < j < |docs|
        ensures docs[i].filename != docs[j].filename
      {
        if docs[i].filename == docs[j].filename {
          PageNamesAreDistinct(req, i, j);
        }
      }
    } else {
      assert docs[0].filename == SingleFilename(req);
    }
  }

  lemma ExtensionIsPlain(format: Format)
    ensures NoSeparators(Extension(format)) && |Extension(format)| >= 3
  {}

  /** A document's name is safe to join exactly when the request id holds no separator. */
  lemma NameIsSafeIff(req: Request, name: string)
    requires NamedFor(req, name)
    ensures SafeName(name) <==> NoSeparators(req.id)
  {
    var ext := Extension(req.format);
    ExtensionIsPlain(req.format);
    if name == SingleFilename(req) {
      assert name == req.id + ("." + ext);
    } else {
      var j: nat :| name == PageFilename(req, j);
      DigitsAreNoSeparators(j + 1);
      assert name == req.id + ("-page-" + Decimal(j + 1) + "." + ext);
    }
  }

  /** A hexadecimal id keeps documents apart from the raw pages beside them. */
  lemma NameIsNotARawPage(req: Request, name: string, n: nat, contentType: string)
    requires NamedFor(req, name) && IsHexId(req.id)
    ensures name != RawName(n, contentType)
  {
    assert req.id[0] in req.id;
    assert name[0] == req.id[0] != 'p' == RawName(n, contentType)[0];
  }

  lemma SingleNameIsARawPageIff(req: Request, n: nat, contentType: string)
    ensures SingleFilename(req) == RawName(n, contentType) <==>
              req.format.TIFF? && "image/tiff" <= contentType && req.id == "page-" + Decimal(n)
  {
    var raw, ext := RawName(n, contentType), Extension(req.format);
    if SingleFilename(req) == raw {
      assert req.format.TIFF? && "image/tiff" <= contentType by {
        assert ext[|ext| - 2] == SingleFilename(req)[|raw| - 2] == raw[|raw| - 2];
        assert ext[|ext| - 1] == SingleFilename(req)[|raw| - 1] == raw[|raw| - 1];
      }
      assert req.id == SingleFilename(req)[..|SingleFilename(req)| - |".tiff"|];
    }
  }

  /** A raw name has one hyphen, at its fifth place; a per_page name has two. */
  lemma PageNameIsNotARawPage(req: Request, j: nat, n: nat, contentType: string)
    ensures PageFilename(req, j) != RawName(n, contentType)
  {
    var raw, name := RawName(n, contentType), PageFilename(req, j);
    assert forall k | |"page-"| <= k < |raw| :: raw[k] != '-' by {
      var rest := Decimal(n) + ExtensionFor(contentType);
      assert '-' !in rest && raw == "page-" + rest;
      assert forall k | |"page-"| <= k < |raw| :: raw[k] == rest[k - |"page-"|];
    }
    assert name == req.id + ("-page-" + (Decimal(j + 1) + "." + Extension(req.format)));
    assert name[|req.id|] == '-' && name[|req.id| + 5] == '-';
  }

  /** When a document can overwrite a raw page, whatever the request id: only a combined
      tiff can, and only the page the id spells out. */
  lemma NameIsARawPageIff(req: Request, name: string, n: nat, contentType: string)
    requires NamedFor(req, name)
    ensures name == RawName(n, contentType) <==>
              && name == SingleFilename(req) && req.format.TIFF?
              && "image/tiff" <= contentType && req.id == "page-" + Decimal(n)
  {
    SingleNameIsARawPageIff(req, n, contentType);
    if name != SingleFilename(req) {
      var j: nat :| name == PageFilename(req, j);
      PageNameIsNotARawPage(req, j, n, contentType);
    }
  }

  // ----- What can be read back -----

  /** Whatever arrives of a response, if it is accepted it is read as the metadata and
      the bodies that were sent. */
  lemma AcceptedIsExact(codec: Codec<Meta>, meta: Meta, docs: seq<Document>, bytes: Content -> Bytes, got: Stream)
    requires Carries(codec, meta) && meta.documents == MetasOf(docs)
    requires Arrives(got, Response(codec, meta, docs, bytes)) && Acceptable(codec, got)
    ensures codec.decode(got.parts[0].body) == Some(meta)
    ensures |got.parts| == 1 + |docs|
    ensures forall j | 0 <= j < |docs| ::
              got.parts[1 + j].body == bytes(docs[j].content) && got.parts[1 + j].contentType == docs[j].contentType
  {
    var sent := Response(codec, meta, docs, bytes);
    assert got.parts[0].body <= codec.encode(meta);
    assert codec.decode(got.parts[0].body) == Some(meta);
    assert |got.parts| == |sent.parts|;
    if docs != [] {
      assert got.parts[1..][|docs| - 1].whole;
      assert got.parts == sent.parts;
    }
  }

  ghost predicate Holds(files: map<string, Bytes>, path: string, body: Bytes) { path in files && files[path] == body }

  lemma PathsAreDistinct(dir: string, metas: seq<DocumentMeta>)
    requires forall i, j | 0 <= i < j < |metas| :: metas[i].filename != metas[j].filename
    ensures Distinct(PathsOf(dir, metas))
  {
    forall i, j | 0 <= i < j < |metas|
      ensures PathsOf(dir, metas)[i] != PathsOf(dir, metas)[j]
    {
      WithinIsInjective(dir, metas[i].filename, metas[j].filename);
    }
  }

  lemma WithinIsInjective(dir: string, a: string, b: string)
    ensures Within(dir, a) == Within(dir, b) <==> a == b
  {
    assert Within(dir, a)[|dir| + 1..] == a && Within(dir, b)[|dir| + 1..] == b;
  }

  /** A complete response is accepted exactly when the request id holds no separator. */
  lemma CompleteResponseIsAcceptedIff(req: Request, docs: seq<Document>, codec: Codec<Meta>, durationMs: nat,
                                      bytes: Content -> Bytes)
    requires WellNamed(req, docs) && docs != [] && Carries(codec, Meta(req.id, MetasOf(docs), durationMs))
    ensures var meta := Meta(req.id, MetasOf(docs), durationMs);
            Acceptable(codec, Response(codec, meta, docs, bytes)) <==> NoSeparators(req.id)
  {
    var meta := Meta(req.id, MetasOf(docs), durationMs);
    var sent := Response(codec, meta, docs, bytes);
    forall j | 0 <= j < |docs|
      ensures SafeName(meta.documents[j].filename) <==> NoSeparators(req.id)
    {
      NameIsSafeIff(req, docs[j].filename);
    }
    assert codec.decode(sent.parts[0].body) == Some(meta);
    assert sent.parts[1..] == DocumentParts(docs, bytes);
    if Acceptable(codec, sent) {
      assert SafeName(meta.documents[0].filename);
    }
  }

  ghost predicate Untouched(before: map<string, Bytes>, after: map<string, Bytes>, path: string) {
    (path in before <==> path in after) && (path in before ==> before[path] == after[path])
  }

  lemma RawPageIsNotWritten(req: Request, dir: string, docs: seq<Document>, n: nat, contentType: string)
    requires IsHexId(req.id) && WellNamed(req, docs)
    ensures RawPath(dir, n, contentType) !in PathsOf(dir, MetasOf(docs))
  {
    forall j | 0 <= j < |docs|
      ensures PathsOf(dir, MetasOf(docs))[j] != RawPath(dir, n, contentType)
    {
      NameIsNotARawPage(req, docs[j].filename, n, contentType);
      WithinIsInjective(dir, docs[j].filename, RawName(n, contentType));
      assert RawPath(dir, n, contentType) == Within(dir, RawName(n, contentType));
    }
  }

  /** What putting distinctly named documents into a directory leaves there. */
  lemma PuttingDocuments(req: Request, docs: seq<Document>, dir: string, bodies: seq<Bytes>, before: map<string, Bytes>)
    requires IsHexId(req.id) && WellNamed(req, docs) && |bodies| == |docs|
    ensures var after := Put(before, PathsOf(dir, MetasOf(docs)), bodies);
            && (forall j | 0 <= j < |docs| :: Holds(after, Within(dir, docs[j].filename), bodies[j]))
            && (forall n: nat, contentType :: Untouched(before, after, RawPath(dir, n, contentType)))
  {
    var paths := PathsOf(dir, MetasOf(docs));
    PathsAreDistinct(dir, MetasOf(docs));
    PutHolds(before, paths, bodies);
    forall j | 0 <= j < |docs|
      ensures Holds(Put(before, paths, bodies), Within(dir, docs[j].filename), bodies[j])
    {
      assert paths[j] == Within(dir, docs[j].filename);
    }
    forall n: nat, contentType
      ensures Untouched(before, Put(before, paths, bodies), RawPath(dir, n, contentType))
    {
      RawPageIsNotWritten(req, dir, docs, n, contentType);
      PutKeeps(before, paths, bodies, RawPath(dir, n, contentType));
    }
  }

  /** Nothing said about the document has been lost or changed. */
  predicate DeliveredUnchanged(doc: Document, got: Delivered) {
    && got.index == doc.index && got.filename == doc.filename && got.contentType == doc.contentType
    && got.pageCount == doc.pageCount && got.warnings == doc.warnings
    && got.ocrConfidence == doc.ocrConfidence && got.lowConfidence == doc.lowConfidence
  }

  /** The bridge's documents are these, in order and field by field, each path in the
      directory holds the bytes of its document, and the raw pages beside them are as
      they were. */
  ghost predicate DeliveredExactly(docs: seq<Document>, bytes: Content -> Bytes, dir: string,
                                   documents: seq<Delivered>, before: map<string, Bytes>, after: map<string, Bytes>)
  {
    && |documents| == |docs|
    && (forall j | 0 <= j < |docs| :: DeliveredUnchanged(docs[j], documents[j]))
    && (forall j | 0 <= j < |docs| :: documents[j].path == dir + "/" + docs[j].filename)
    && (forall j | 0 <= j < |docs| :: Holds(after, documents[j].path, bytes(docs[j].content)))
    && (forall n: nat, contentType :: Untouched(before, after, RawPath(dir, n, contentType)))
  }

  /** Delivery is all or nothing: whatever arrives of a response, if the bridge accepts it
      then exactly the documents sent have been delivered. */
  lemma AcceptedDocumentsWereSent(req: Request, docs: seq<Document>, codec: Codec<Meta>, durationMs: nat,
                                  bytes: Content -> Bytes, got: Stream, dir: string, documents: seq<Delivered>,
                                  before: map<string, Bytes>, after: map<string, Bytes>)
    requires IsHexId(req.id) && WellNamed(req, docs) && Carries(codec, Meta(req.id, MetasOf(docs), durationMs))
    requires Arrives(got, Response(codec, Meta(req.id, MetasOf(docs), durationMs), docs, bytes))
    requires ReadFrom(codec, dir, got, documents, before, after)
    ensures DeliveredExactly(docs, bytes, dir, documents, before, after)
  {
    var meta := Meta(req.id, MetasOf(docs), durationMs);
    AcceptedIsExact(codec, meta, docs, bytes, got);
    DocumentsAsDescribed(req, docs, bytes, dir, got.parts[1..], documents, before, after);
  }

  lemma DocumentsAsDescribed(req: Request, docs: seq<Document>, bytes: Content -> Bytes, dir: string,
                             parts: seq<Part>, documents: seq<Delivered>, before: map<string, Bytes>,
                             after: map<string, Bytes>)
    requires IsHexId(req.id) && WellNamed(req, docs)
    requires |parts| == |docs| && forall j | 0 <= j < |docs| :: parts[j].body == bytes(docs[j].content)
    requires ReadSoFar(dir, MetasOf(docs), parts, documents, before, after)
    ensures DeliveredExactly(docs, bytes, dir, documents, before, after)
  {
    PuttingDocuments(req, docs, dir, BodiesOf(parts), before);
  }

  /** The same for a run of the pipeline: its response either becomes exactly its
      documents on disk or is refused, and one that arrives to its end is not refused. */
  lemma RunsAreDelivered(t: Tools, req: Request, codec: Codec<Meta>, durationMs: nat, bytes: Content -> Bytes,
                         got: Stream, dir: string, documents: seq<Delivered>, before: map<string, Bytes>,
                         after: map<string, Bytes>)
    requires Succeeds(t, req) && IsHexId(req.id)
    requires var docs := Documents(t, req);
             && Carries(codec, Meta(req.id, MetasOf(docs), durationMs))
             && Arrives(got, Response(codec, Meta(req.id, MetasOf(docs), durationMs), docs, bytes))
    ensures got.ending.EndOfParts? ==> Acceptable(codec, got)
    ensures ReadFrom(codec, dir, got, documents, before, after) ==>
              DeliveredExactly(Documents(t, req), bytes, dir, documents, before, after)
  {
    var docs := Documents(t, req);
    DocumentsAreWellNamed(t, req);
    HexIdsHaveNoSeparators(req.id);
    CompleteResponseIsAcceptedIff(req, docs, codec, durationMs, bytes);
    if ReadFrom(codec, dir, got, documents, before, after) {
      AcceptedDocumentsWereSent(req, docs, codec, durationMs, bytes, got, dir, documents, before, after);
    }
  }

  lemma HexIdsHaveNoSeparators(id: string)
    requires IsHexId(id)
    ensures NoSeparators(id)
  {}
}
