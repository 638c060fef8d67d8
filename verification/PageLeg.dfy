/** The request leg: scanned pages land as files of the scan's directory, are sent on as
    parts behind a control payload, and are taken apart again by the processor. */
module PageLeg {
  import opened Text
  import opened Wire

  datatype ScanMeta = ScanMeta(pageCount: nat, durationMs: nat)

  /** processRequestPayload. */
  datatype Control = Control(
    requestId: string,
    ocr: bool,
    languages: seq<string>,
    minConfidence: real,
    deskew: bool,
    removeBlank: bool,
    rotatePages: bool,
    pageGrouping: string,
    outputFormat: string,
    timeoutSeconds: int)

  /** procclient.ProcessRequest. */
  datatype ProcessRequest = ProcessRequest(
    requestId: string,
    pagePaths: seq<string>,
    ocr: bool,
    languages: seq<string>,
    minConfidence: real,
    deskew: bool,
    removeBlank: bool,
    rotatePages: bool,
    pageGrouping: string,
    outputFormat: string,
    timeoutSeconds: int)

  datatype LegError =
    | NoFirstPart
    | BadFirstPart
    | NoOutputDir
    | BrokenBody(page: nat)
    | PageNotWritten(page: nat)
    | PageNotRead(page: nat)

  // ----- Pages from the scanner -----

  function ExtensionFor(contentType: string): string { if "image/tiff" <= contentType then ".tiff" else ".bin" }

  function RawName(n: nat, contentType: string): string { "page-" + Decimal(n) + ExtensionFor(contentType) }

  function RawPath(dir: string, n: nat, contentType: string): string { dir + "/" + RawName(n, contentType) }

  function RawPaths(dir: string, parts: seq<Part>): seq<string> {
    seq(|parts|, j requires 0 <= j < |parts| => RawPath(dir, j + 1, parts[j].contentType))
  }

  /** A stream whose first part decodes and which ends properly after whole parts. */
  ghost predicate Complete<M>(codec: Codec<M>, stream: Stream) {
    && stream.parts != []
    && codec.decode(stream.parts[0].body).Some?
    && AllWhole(stream.parts[1..])
    && stream.ending.EndOfParts?
  }

  /** What reading the first page parts has done. */
  ghost predicate PagesSoFar(dir: string, parts: seq<Part>, pages: seq<string>, before: map<string, Bytes>,
                             after: map<string, Bytes>)
  {
    AllWhole(parts) && pages == RawPaths(dir, parts) && after == Put(before, pages, BodiesOf(parts))
  }

  lemma RawPathsOneMore(dir: string, parts: seq<Part>, part: Part)
    ensures RawPaths(dir, parts + [part]) == RawPaths(dir, parts) + [RawPath(dir, |parts| + 1, part.contentType)]
  {}

  lemma BodiesOneMore(parts: seq<Part>, part: Part)
    ensures BodiesOf(parts + [part]) == BodiesOf(parts) + [part.body]
  {}

  lemma WholeOneMore(parts: seq<Part>, part: Part)
    requires AllWhole(parts) && part.whole
    ensures AllWhole(parts + [part])
  {}

  lemma PageRead(dir: string, parts: seq<Part>, pages: seq<string>, before: map<string, Bytes>,
                 after: map<string, Bytes>, part: Part)
    requires PagesSoFar(dir, parts, pages, before, after) && part.whole
    ensures var path := RawPath(dir, |pages| + 1, part.contentType);
            PagesSoFar(dir, parts + [part], pages + [path], before, after[path := part.body])
  {
    var path := RawPath(dir, |parts| + 1, part.contentType);
    assert |pages| == |parts|;
    RawPathsOneMore(dir, parts, part);
    BodiesOneMore(parts, part);
    WholeOneMore(parts, part);
    PutSnoc(before, pages, BodiesOf(parts), path, part.body);
  }

  /** dispatch's readScanResponse: every page part becomes page-1, page-2, ... */
  method ReadScanResponse(disk: OutputDisk, dir: string, codec: Codec<ScanMeta>, stream: Stream)
    returns (r: Result<seq<string>, LegError>)
    requires !disk.faulty
    modifies disk
    ensures disk.reliable ==> !disk.faulty
    ensures r.Ok? ==> Complete(codec, stream) && !disk.faulty
    ensures Complete(codec, stream) && !disk.faulty ==> r.Ok?
    ensures r == Err(NoFirstPart) <==> stream.parts == []
    ensures r == Err(BadFirstPart) <==> stream.parts != [] && codec.decode(stream.parts[0].body).None?
    ensures r.Ok? ==> PagesSoFar(dir, stream.parts[1..], r.value, old(disk.files), disk.files)
  {
    var reader := new PartReader(stream);
    var first := reader.NextPart();
    if first.Err? {
      return Err(NoFirstPart);
    }
    if codec.decode(first.value.body).None? {
      return Err(BadFirstPart);
    }
    var made := disk.MakeDirectory();
    if !made {
      return Err(NoOutputDir);
    }
    r := ReadPages(reader, disk, dir);
  }

  method ReadPages(reader: PartReader, disk: OutputDisk, dir: string) returns (r: Result<seq<string>, LegError>)
    requires !disk.faulty && reader.next == 1 <= |reader.stream.parts|
    modifies disk, reader
    ensures disk.reliable ==> !disk.faulty
    ensures r.Ok? ==> reader.stream.ending.EndOfParts? && !disk.faulty
    ensures r.Ok? ==> PagesSoFar(dir, reader.stream.parts[1..], r.value, old(disk.files), disk.files)
    ensures AllWhole(reader.stream.parts[1..]) && reader.stream.ending.EndOfParts? && !disk.faulty ==> r.Ok?
    ensures r.Err? ==>
              || (r.error == BrokenBody(|reader.stream.parts|) && reader.stream.ending.Broken?)
              || (exists n | 0 < n < |reader.stream.parts| ::
                    r.error == PageNotWritten(n) && (disk.faulty || !reader.stream.parts[n].whole))
  {
    var pages: seq<string> := [];
    ghost var parts := reader.stream.parts[1..];
    while true
      invariant reader.next == |pages| + 1 <= |parts| + 1 && !disk.faulty
      invariant PagesSoFar(dir, parts[..|pages|], pages, old(disk.files), disk.files)
      decreases |parts| - |pages|
    {
      var part := reader.NextPart();
      if part.Err? {
        assert parts[..|pages|] == parts;
        return if part.error.EndOfParts? then Ok(pages) else Err(BrokenBody(|pages| + 1));
      }
      ghost var before := disk.files;
      var path := RawPath(dir, |pages| + 1, part.value.contentType);
      var written := disk.WritePart(path, part.value);
      if !written {
        assert part.value == parts[|pages|];
        return Err(PageNotWritten(|pages| + 1));
      }
      PageRead(dir, parts[..|pages|], pages, old(disk.files), before, part.value);
      assert parts[..|pages| + 1] == parts[..|pages|] + [part.value];
      pages := pages + [path];
    }
  }

  // ----- Pages to the processor -----

  function Fetched(files: map<string, Bytes>, paths: seq<string>): seq<Bytes>
    requires forall j | 0 <= j < |paths| :: paths[j] in files
  {
    seq(|paths|, j requires 0 <= j < |paths| => files[paths[j]])
  }

  /** The request for a control payload and pages. */
  function RequestStream(codec: Codec<Control>, control: Control, pages: seq<Bytes>): Stream {
    Stream([Part("application/json", codec.encode(control), true)]
           + seq(|pages|, j requires 0 <= j < |pages| => Part("image/tiff", pages[j], true)), EndOfParts)
  }

  function PayloadOf(req: ProcessRequest): Control {
    Control(req.requestId, req.ocr, req.languages, req.minConfidence, req.deskew, req.removeBlank, req.rotatePages,
            req.pageGrouping, req.outputFormat, req.timeoutSeconds)
  }

  /** The parts for the control payload and the first pages. */
  ghost predicate Encoded(codec: Codec<Control>, control: Control, files: map<string, Bytes>, paths: seq<string>,
                          parts: seq<Part>)
  {
    && (forall j | 0 <= j < |paths| :: paths[j] in files)
    && parts == RequestStream(codec, control, Fetched(files, paths)).parts
  }

  lemma EncodedOneMore(codec: Codec<Control>, control: Control, files: map<string, Bytes>, paths: seq<string>,
                       parts: seq<Part>, path: string)
    requires Encoded(codec, control, files, paths, parts) && path in files
    ensures Encoded(codec, control, files, paths + [path], parts + [Part("image/tiff", files[path], true)])
  {
    assert Fetched(files, paths + [path]) == Fetched(files, paths) + [files[path]];
  }

  /** encodeProcessRequest: the buffer it writes to cannot fail, the files can. */
  method EncodeProcessRequest(disk: OutputDisk, codec: Codec<Control>, req: ProcessRequest)
    returns (r: Result<Stream, LegError>)
    requires !disk.faulty
    modifies disk`faulty
    ensures disk.reliable ==> !disk.faulty
    ensures r.Ok? ==>
              && (forall j | 0 <= j < |req.pagePaths| :: req.pagePaths[j] in disk.files)
              && r.value == RequestStream(codec, PayloadOf(req), Fetched(disk.files, req.pagePaths))
    ensures r.Err? ==>
              exists j | 0 <= j < |req.pagePaths| ::
                r.error == PageNotRead(j) && (disk.faulty || req.pagePaths[j] !in disk.files)
  {
    var control, paths := PayloadOf(req), req.pagePaths;
    var w := new PartWriter(true);
    var ok := w.WritePart("application/json", codec.encode(control));
    for j := 0 to |paths|
      invariant fresh(w) && w.reliable && !disk.faulty
      invariant Encoded(codec, control, disk.files, paths[..j], w.parts)
    {
      var body := disk.ReadFile(paths[j]);
      if body.None? {
        return Err(PageNotRead(j));
      }
      EncodedOneMore(codec, control, disk.files, paths[..j], w.parts, paths[j]);
      assert paths[..j + 1] == paths[..j] + [paths[j]];
      ok := w.WritePart("image/tiff", body.value);
    }
    assert paths[..|paths|] == paths;
    var ending := w.Close();
    return Ok(Stream(w.parts, ending));
  }

  /** decodeProcessRequest: a body over the size limit is one that breaks off. */
  method DecodeProcessRequest(codec: Codec<Control>, stream: Stream)
    returns (r: Result<(Control, seq<Bytes>), LegError>)
    ensures r.Ok? <==> Complete(codec, stream)
    ensures r == Err(NoFirstPart) <==> stream.parts == []
    ensures r == Err(BadFirstPart) <==> stream.parts != [] && codec.decode(stream.parts[0].body).None?
    ensures r.Ok? ==> r.value.0 == codec.decode(stream.parts[0].body).value && r.value.1 == BodiesOf(stream.parts[1..])
  {
    var reader := new PartReader(stream);
    var first := reader.NextPart();
    if first.Err? {
      return Err(NoFirstPart);
    }
    var control := codec.decode(first.value.body);
    if control.None? {
      return Err(BadFirstPart);
    }
    var pages: seq<Bytes> := [];
    ghost var parts := stream.parts[1..];
    while true
      invariant fresh(reader) && reader.stream == stream && reader.next == 1 + |pages| <= |stream.parts|
      invariant AllWhole(parts[..|pages|]) && pages == BodiesOf(parts[..|pages|])
      decreases |stream.parts| - |pages|
    {
      var part := reader.NextPart();
      if part.Err? {
        assert parts[..|pages|] == parts;
        return if part.error.EndOfParts? then Ok((control.value, pages)) else Err(BrokenBody(|pages|));
      }
      assert part.value == parts[|pages|];
      if !part.value.whole {
        return Err(BrokenBody(|pages|));
      }
      pages := pages + [part.value.body];
    }
  }

  // ----- The whole leg -----

  lemma RawNameSplits(n: nat, contentType: string) returns (rest: string)
    ensures RawName(n, contentType) == "page-" + (Decimal(n) + ['.'] + rest)
  {
    rest := ExtensionFor(contentType)[1..];
    assert ExtensionFor(contentType) == ['.'] + rest;
  }

  lemma RawNamesAreDistinct(m: nat, n: nat, a: string, b: string)
    requires RawName(m, a) == RawName(n, b)
    ensures m == n
  {
    var p := RawNameSplits(m, a);
    var q := RawNameSplits(n, b);
    SameTail("page-", Decimal(m) + ['.'] + p, Decimal(n) + ['.'] + q);
    DecimalDelimited(m, n, '.', p, q);
  }

  lemma RawPathsAreDistinct(dir: string, parts: seq<Part>)
    ensures Distinct(RawPaths(dir, parts))
  {
    forall i, j | 0 <= i < j < |parts|
      ensures RawPaths(dir, parts)[i] != RawPaths(dir, parts)[j]
    {
      var a, b := RawName(i + 1, parts[i].contentType), RawName(j + 1, parts[j].contentType);
      if dir + "/" + a == dir + "/" + b {
        assert a == (dir + "/" + a)[|dir| + 1..] == (dir + "/" + b)[|dir| + 1..] == b;
        RawNamesAreDistinct(i + 1, j + 1, parts[i].contentType, parts[j].contentType);
      }
    }
  }

  /** What an accepted scan has left: the n-th page stands under "page-n" in the directory,
      as ".tiff" for image/tiff and ".bin" otherwise, with its bytes; no other file changed. */
  lemma ScannedPagesLand(dir: string, parts: seq<Part>, pages: seq<string>, before: map<string, Bytes>,
                         after: map<string, Bytes>)
    requires PagesSoFar(dir, parts, pages, before, after)
    ensures |pages| == |parts|
    ensures forall j | 0 <= j < |parts| ::
              && pages[j] == dir + "/" + ("page-" + Decimal(j + 1)
                                          + if "image/tiff" <= parts[j].contentType then ".tiff" else ".bin")
              && pages[j] in after && after[pages[j]] == parts[j].body
    ensures forall path | path !in pages ::
              (path in after <==> path in before) && (path in before ==> after[path] == before[path])
  {
    RawPathsAreDistinct(dir, parts);
    PutHolds(before, pages, BodiesOf(parts));
    forall path | path !in pages
      ensures (path in after <==> path in before) && (path in before ==> after[path] == before[path])
    {
      PutKeeps(before, pages, BodiesOf(parts), path);
    }
  }

  /** What is stored under distinct paths is fetched again. */
  lemma StoredIsFetched(dir: string, parts: seq<Part>, files: map<string, Bytes>)
    ensures var paths, after := RawPaths(dir, parts), Put(files, RawPaths(dir, parts), BodiesOf(parts));
            (forall j | 0 <= j < |paths| :: paths[j] in after) && Fetched(after, paths) == BodiesOf(parts)
  {
    RawPathsAreDistinct(dir, parts);
    PutHolds(files, RawPaths(dir, parts), BodiesOf(parts));
  }

  /** A request is read as the payload and the pages it was made of, or refused. */
  lemma RequestIsRead(codec: Codec<Control>, control: Control, bodies: seq<Bytes>, arrived: Stream)
    requires Carries(codec, control)
    ensures var sent := RequestStream(codec, control, bodies);
            && Complete(codec, sent) && |sent.parts| == 1 + |bodies|
            && (forall j | 0 < j < |sent.parts| :: sent.parts[j].contentType == "image/tiff")
            && codec.decode(sent.parts[0].body) == Some(control) && BodiesOf(sent.parts[1..]) == bodies
            && (Arrives(arrived, sent) && Complete(codec, arrived) ==> arrived == sent)
  {}

  /** The scanner's pages reach the processor with their bytes and in their order: the
      request made from the files of a complete scan is decoded to the same control
      payload and exactly those pages, and whatever arrives of it instead is refused. */
  lemma PagesReachTheProcessor(scan: Codec<ScanMeta>, codec: Codec<Control>, stream: Stream, dir: string,
                               files: map<string, Bytes>, control: Control, arrived: Stream)
    requires Complete(scan, stream) && Carries(codec, control)
    ensures var paths, bodies := RawPaths(dir, stream.parts[1..]), BodiesOf(stream.parts[1..]);
            var after := Put(files, paths, bodies);
            && (forall j | 0 <= j < |paths| :: paths[j] in after)
            && var sent := RequestStream(codec, control, Fetched(after, paths));
               && Complete(codec, sent) && |sent.parts| == 1 + |bodies|
               && (forall j | 0 < j < |sent.parts| :: sent.parts[j].contentType == "image/tiff")
               && codec.decode(sent.parts[0].body) == Some(control) && BodiesOf(sent.parts[1..]) == bodies
               && (Arrives(arrived, sent) && Complete(codec, arrived) ==> arrived == sent)
  {
    StoredIsFetched(dir, stream.parts[1..], files);
    RequestIsRead(codec, control, BodiesOf(stream.parts[1..]), arrived);
  }
}
