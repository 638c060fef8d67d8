/** The response leg: the processor writes the assembled documents as parts, the bridge
    reads them back into files of one directory. */
module Delivery {
  import opened Text
  import opened PipelineSpec
  import opened Wire
  import Paths = ManifestDoc

  datatype DocumentMeta = DocumentMeta(
    index: nat,
    pageCount: nat,
    filename: string,
    contentType: string,
    warnings: seq<string>,
    ocrConfidence: real,
    lowConfidence: bool)

  datatype Meta = Meta(requestId: string, documents: seq<DocumentMeta>, durationMs: nat)

  /** procclient.Document. */
  datatype Delivered = Delivered(
    index: nat,
    filename: string,
    path: string,
    contentType: string,
    pageCount: nat,
    warnings: seq<string>,
    ocrConfidence: real,
    lowConfidence: bool)

  datatype ProcessResult = ProcessResult(requestId: string, documents: seq<Delivered>, durationMs: nat)

  datatype ResponseError =
    | NoMetadata
    | BadMetadata
    | NoOutputDir
    | MissingPart(document: nat)
    | UnreadablePart(document: nat)
    | UnsafeName(document: nat)
    | NotWritten(document: nat)
    | ExtraPart

  // ----- Writing -----

  function MetaOf(doc: Document): DocumentMeta {
    DocumentMeta(doc.index, doc.pageCount, doc.filename, doc.contentType, doc.warnings,
                 doc.ocrConfidence, doc.lowConfidence)
  }

  /** A description that keeps everything there is to say about a document. */
  predicate Describes(meta: DocumentMeta, doc: Document) {
    && meta.index == doc.index && meta.pageCount == doc.pageCount
    && meta.filename == doc.filename && meta.contentType == doc.contentType
    && meta.warnings == doc.warnings
    && meta.ocrConfidence == doc.ocrConfidence && meta.lowConfidence == doc.lowConfidence
  }

  function MetasOf(docs: seq<Document>): seq<DocumentMeta> {
    seq(|docs|, j requires 0 <= j < |docs| => MetaOf(docs[j]))
  }

  function DocumentParts(docs: seq<Document>, bytes: Content -> Bytes): seq<Part> {
    seq(|docs|, j requires 0 <= j < |docs| => Part(docs[j].contentType, bytes(docs[j].content), true))
  }

  /** The response a result is meant to become: its metadata, then its documents. */
  function Response(codec: Codec<Meta>, meta: Meta, docs: seq<Document>, bytes: Content -> Bytes): Stream {
    Stream([Part("application/json", codec.encode(meta), true)] + DocumentParts(docs, bytes), EndOfParts)
  }

  method ListMetas(docs: seq<Document>) returns (metas: seq<DocumentMeta>)
    ensures metas == MetasOf(docs)
  {
    metas := [];
    for j := 0 to |docs|
      invariant |metas| == j && forall k | 0 <= k < j :: metas[k] == MetaOf(docs[k])
    {
      metas := metas + [MetaOf(docs[j])];
    }
  }

  method WriteDocuments(w: PartWriter, docs: seq<Document>, bytes: Content -> Bytes, ghost all: seq<Part>)
    returns (ok: bool)
    requires all == w.parts + DocumentParts(docs, bytes)
    modifies w
    ensures ok ==> w.parts == all
    ensures !ok ==> !w.reliable && Arrives(Stream(w.parts, Broken), Stream(all, EndOfParts))
  {
    ghost var head := |w.parts|;
    for j := 0 to |docs|
      invariant w.parts == all[..head + j]
    {
      assert all[..head + j + 1] == all[..head + j] + [Part(docs[j].contentType, bytes(docs[j].content), true)];
      ok := w.WritePart(docs[j].contentType, bytes(docs[j].content));
      if !ok {
        ArrivesOfBeginning(Stream(w.parts, Broken), all[..head + j + 1], Stream(all, EndOfParts));
        return false;
      }
    }
    return true;
  }

  /** writeProcessResponse: what the connection has taken when it returns. A failure is
      only logged, so the reader has to notice. */
  method WriteProcessResponse(w: PartWriter, codec: Codec<Meta>, requestId: string, docs: seq<Document>,
                              durationMs: nat, bytes: Content -> Bytes)
    returns (sent: Stream)
    requires w.parts == []
    modifies w
    ensures Arrives(sent, Response(codec, Meta(requestId, MetasOf(docs), durationMs), docs, bytes))
    ensures w.reliable ==> sent == Response(codec, Meta(requestId, MetasOf(docs), durationMs), docs, bytes)
    ensures forall j | 0 <= j < |docs| :: Describes(MetasOf(docs)[j], docs[j])
  {
    var metas := ListMetas(docs);
    ghost var all := Response(codec, Meta(requestId, metas, durationMs), docs, bytes);
    var ok := w.WritePart("application/json", codec.encode(Meta(requestId, metas, durationMs)));
    if !ok {
      ArrivesOfBeginning(Stream(w.parts, Broken), all.parts[..1], all);
      return Stream(w.parts, Broken);
    }
    ok := WriteDocuments(w, docs, bytes, all.parts);
    if !ok {
      return Stream(w.parts, Broken);
    }
    var ending := w.Close();
    return Stream(w.parts, ending);
  }

  // ----- Reading -----

  /** A name that stays inside the directory it is joined to. */
  predicate SafeName(name: string) {
    name !in ["", ".", ".."] && '/' !in name && '\\' !in name
  }

  function Within(dir: string, name: string): string { dir + "/" + name }

  lemma {:induction false} LastSegmentOfPlain(s: string)
    requires '/' !in s
    ensures Paths.LastSegment(s) == s
  {
    if s != "" {
      var n := |s| - 1;
      assert s[n] in s;
      LastSegmentOfPlain(s[..n]);
      assert s == s[..n] + [s[n]];
    }
  }

  lemma BaseOfPlain(s: string)
    requires s != "" && '/' !in s
    ensures Paths.Base(s) == s
  {
    assert s[|s| - 1] in s;
    LastSegmentOfPlain(s);
  }

  /** safeDocumentPath accepts exactly the safe names, and joins them unchanged. */
  function SafeDocumentPath(dir: string, filename: string): (path: Option<string>)
    ensures path == if SafeName(filename) then Some(Within(dir, filename)) else None
  {
    if filename == "" then None
    else if filename == "." || filename == ".." then None
    else
      var clean := Paths.Base(filename);
      assert '/' !in filename ==> clean == filename by {
        if '/' !in filename { BaseOfPlain(filename); }
      }
      if clean != filename || '/' in filename || '\\' in filename then None
      else Some(Within(dir, clean))
  }

  /** Everything outside the directory's own safe names is as it was. */
  ghost predicate SameOutside(dir: string, before: map<string, Bytes>, after: map<string, Bytes>) {
    forall path | !(exists name :: SafeName(name) && path == Within(dir, name)) ::
      (path in before <==> path in after) && (path in before ==> before[path] == after[path])
  }

  lemma OneMoreInside(dir: string, name: string, a: map<string, Bytes>, b: map<string, Bytes>, c: map<string, Bytes>)
    requires SameOutside(dir, a, b) && SafeName(name) && c - {Within(dir, name)} == b - {Within(dir, name)}
    ensures SameOutside(dir, a, c)
  {
    forall path | !(exists name :: SafeName(name) && path == Within(dir, name))
      ensures (path in a <==> path in c) && (path in a ==> a[path] == c[path])
    {
      assert path != Within(dir, name);
      assert path in c - {Within(dir, name)} <==> path in c;
      assert path in b - {Within(dir, name)} <==> path in b;
    }
  }

  function PathsOf(dir: string, metas: seq<DocumentMeta>): seq<string> {
    seq(|metas|, j requires 0 <= j < |metas| => Within(dir, metas[j].filename))
  }

  function DeliveredAs(dir: string, meta: DocumentMeta): Delivered {
    Delivered(meta.index, meta.filename, Within(dir, meta.filename), meta.contentType, meta.pageCount,
              meta.warnings, meta.ocrConfidence, meta.lowConfidence)
  }

  function AllDelivered(dir: string, metas: seq<DocumentMeta>): seq<Delivered> {
    seq(|metas|, j requires 0 <= j < |metas| => DeliveredAs(dir, metas[j]))
  }

  ghost predicate Readable(metas: seq<DocumentMeta>, parts: seq<Part>) {
    |metas| == |parts| && forall j | 0 <= j < |metas| :: SafeName(metas[j].filename) && parts[j].whole
  }

  /** When a response is accepted: its metadata decodes, there is one part for each
      declared document and no more, every part arrived whole and every name is safe.
      How the stream ends after the last declared part does not matter. */
  ghost predicate Acceptable(codec: Codec<Meta>, stream: Stream) {
    && stream.parts != []
    && codec.decode(stream.parts[0].body).Some?
    && Readable(codec.decode(stream.parts[0].body).value.documents, stream.parts[1..])
  }

  /** What reading the first documents has done. */
  ghost predicate ReadSoFar(dir: string, metas: seq<DocumentMeta>, parts: seq<Part>, documents: seq<Delivered>,
                            before: map<string, Bytes>, after: map<string, Bytes>)
  {
    && Readable(metas, parts)
    && documents == AllDelivered(dir, metas)
    && after == Put(before, PathsOf(dir, metas), BodiesOf(parts))
  }

  lemma ReadableOneMore(metas: seq<DocumentMeta>, parts: seq<Part>, meta: DocumentMeta, part: Part)
    requires Readable(metas, parts) && SafeName(meta.filename) && part.whole
    ensures Readable(metas + [meta], parts + [part])
  {}

  lemma PutOneMore(dir: string, metas: seq<DocumentMeta>, parts: seq<Part>, before: map<string, Bytes>,
                   meta: DocumentMeta, part: Part)
    requires |metas| == |parts|
    ensures Put(before, PathsOf(dir, metas + [meta]), BodiesOf(parts + [part])) ==
            Put(before, PathsOf(dir, metas), BodiesOf(parts))[Within(dir, meta.filename) := part.body]
  {
    PutSnoc(before, PathsOf(dir, metas), BodiesOf(parts), Within(dir, meta.filename), part.body);
    assert PathsOf(dir, metas + [meta]) == PathsOf(dir, metas) + [Within(dir, meta.filename)];
    assert BodiesOf(parts + [part]) == BodiesOf(parts) + [part.body];
  }

  lemma ReadOneMore(dir: string, metas: seq<DocumentMeta>, parts: seq<Part>, documents: seq<Delivered>,
                    before: map<string, Bytes>, after: map<string, Bytes>, meta: DocumentMeta, part: Part)
    requires ReadSoFar(dir, metas, parts, documents, before, after) && SafeName(meta.filename) && part.whole
    ensures ReadSoFar(dir, metas + [meta], parts + [part], documents + [DeliveredAs(dir, meta)],
                      before, after[Within(dir, meta.filename) := part.body])
  {
    ReadableOneMore(metas, parts, meta, part);
    PutOneMore(dir, metas, parts, before, meta, part);
    assert AllDelivered(dir, metas + [meta]) == AllDelivered(dir, metas) + [DeliveredAs(dir, meta)];
  }

  /** Why a declared document cannot be had. */
  predicate FailsFor(stream: Stream, at: nat, meta: DocumentMeta, j: nat, error: ResponseError, faulty: bool) {
    if at >= |stream.parts| then error == if stream.ending.EndOfParts? then MissingPart(j) else UnreadablePart(j)
    else if !SafeName(meta.filename) then error == UnsafeName(j)
    else error == NotWritten(j) && (faulty || !stream.parts[at].whole)
  }

  /** One declared document. */
  method ReadDocument(reader: PartReader, disk: OutputDisk, dir: string, meta: DocumentMeta, j: nat)
    returns (r: Result<Delivered, ResponseError>)
    requires !disk.faulty
    modifies disk, reader
    ensures disk.reliable ==> !disk.faulty
    ensures old(reader.next) < |reader.stream.parts| ==> reader.next == old(reader.next) + 1
    ensures r.Ok? ==>
              && old(reader.next) < |reader.stream.parts|
              && SafeName(meta.filename) && reader.stream.parts[old(reader.next)].whole
              && r.value == DeliveredAs(dir, meta) && !disk.faulty
              && disk.files == old(disk.files)[Within(dir, meta.filename) := reader.stream.parts[old(reader.next)].body]
    ensures r.Err? ==> FailsFor(reader.stream, old(reader.next), meta, j, r.error, disk.faulty)
    ensures SameOutside(dir, old(disk.files), disk.files)
  {
    var part := reader.NextPart();
    if part.Err? {
      return Err(if part.error.EndOfParts? then MissingPart(j) else UnreadablePart(j));
    }
    var path := SafeDocumentPath(dir, meta.filename);
    if path.None? {
      return Err(UnsafeName(j));
    }
    var written := disk.WritePart(path.value, part.value);
    OneMoreInside(dir, meta.filename, old(disk.files), old(disk.files), disk.files);
    if !written {
      return Err(NotWritten(j));
    }
    return Ok(DeliveredAs(dir, meta));
  }

  /** The loop over the declared documents, after the metadata part. */
  method ReadDocuments(reader: PartReader, disk: OutputDisk, dir: string, metas: seq<DocumentMeta>)
    returns (r: Result<seq<Delivered>, ResponseError>)
    requires !disk.faulty && reader.next == 1 <= |reader.stream.parts|
    modifies disk, reader
    ensures disk.reliable ==> !disk.faulty
    ensures r.Ok? ==>
              && !disk.faulty && reader.next == 1 + |metas| <= |reader.stream.parts|
              && ReadSoFar(dir, metas, reader.stream.parts[1..reader.next], r.value, old(disk.files), disk.files)
    ensures Readable(metas, reader.stream.parts[1..]) && !disk.faulty ==> r.Ok?
    ensures r.Err? ==>
              exists j | 0 <= j < |metas| :: FailsFor(reader.stream, 1 + j, metas[j], j, r.error, disk.faulty)
    ensures SameOutside(dir, old(disk.files), disk.files)
  {
    var documents: seq<Delivered> := [];
    ghost var parts := reader.stream.parts;
    for j := 0 to |metas|
      invariant reader.next == 1 + j <= |parts| && !disk.faulty
      invariant ReadSoFar(dir, metas[..j], parts[1..1 + j], documents, old(disk.files), disk.files)
      invariant SameOutside(dir, old(disk.files), disk.files)
    {
      assert Readable(metas, parts[1..]) ==> 1 + j < |parts| && parts[1..][j] == parts[1 + j];
      ghost var before := disk.files;
      var document := ReadDocument(reader, disk, dir, metas[j], j);
      SameOutsideAlso(dir, old(disk.files), before, disk.files);
      if document.Err? {
        return Err(document.error);
      }
      ReadOneMore(dir, metas[..j], parts[1..1 + j], documents, old(disk.files), before, metas[j], parts[1 + j]);
      assert metas[..j + 1] == metas[..j] + [metas[j]] && parts[1..2 + j] == parts[1..1 + j] + [parts[1 + j]];
      documents := documents + [document.value];
    }
    assert metas[..|metas|] == metas;
    return Ok(documents);
  }

  lemma SameOutsideAlso(dir: string, a: map<string, Bytes>, b: map<string, Bytes>, c: map<string, Bytes>)
    requires SameOutside(dir, a, b) && SameOutside(dir, b, c)
    ensures SameOutside(dir, a, c)
  {}

  /** What an accepted response has become. */
  ghost predicate ReadFrom(codec: Codec<Meta>, dir: string, stream: Stream, documents: seq<Delivered>,
                           before: map<string, Bytes>, after: map<string, Bytes>)
  {
    && Acceptable(codec, stream)
    && ReadSoFar(dir, codec.decode(stream.parts[0].body).value.documents, stream.parts[1..], documents, before, after)
  }

  /** readProcessResponse. */
  method ReadProcessResponse(disk: OutputDisk, dir: string, requestId: string, codec: Codec<Meta>, stream: Stream)
    returns (r: Result<ProcessResult, ResponseError>)
    requires !disk.faulty
    modifies disk
    ensures disk.reliable ==> !disk.faulty
    ensures r.Ok? ==> !disk.faulty && ReadFrom(codec, dir, stream, r.value.documents, old(disk.files), disk.files)
    ensures r.Ok? ==> r.value.requestId == requestId
                      && r.value.durationMs == codec.decode(stream.parts[0].body).value.durationMs
    ensures Acceptable(codec, stream) && !disk.faulty ==> r.Ok?
    ensures r == Err(NoMetadata) <==> stream.parts == []
    ensures r == Err(BadMetadata) <==> stream.parts != [] && codec.decode(stream.parts[0].body).None?
    ensures r == Err(NoOutputDir) ==> disk.faulty
    ensures r == Err(ExtraPart) ==> |stream.parts| > 1 + |codec.decode(stream.parts[0].body).value.documents|
    ensures SameOutside(dir, old(disk.files), disk.files)
  {
    var reader := new PartReader(stream);
    var first := reader.NextPart();
    if first.Err? {
      return Err(NoMetadata);
    }
    var decoded := codec.decode(first.value.body);
    if decoded.None? {
      return Err(BadMetadata);
    }
    var made := disk.MakeDirectory();
    if !made {
      return Err(NoOutputDir);
    }
    var documents := ReadDocuments(reader, disk, dir, decoded.value.documents);
    if documents.Err? {
      return Err(documents.error);
    }
    var extra := reader.NextPart();
    if extra.Ok? {
      return Err(ExtraPart);
    }
    assert stream.parts[1..reader.next] == stream.parts[1..];
    return Ok(ProcessResult(requestId, documents.value, decoded.value.durationMs));
  }
}
