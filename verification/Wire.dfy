/** The multipart legs between bridge and processor, at the level of part lists: what is
    written on one side, what may arrive on the other, and the files that come of it. */
module Wire {
  import opened Text

  /** One part as a reader meets it: `whole` when its body can be read to the end. */
  datatype Part = Part(contentType: string, body: Bytes, whole: bool)

  /** What NextPart reports once there are no more parts: io.EOF, or another error. */
  datatype Ending = EndOfParts | Broken

  datatype Stream = Stream(parts: seq<Part>, ending: Ending)

  /** How a value travels as the JSON text of a part. */
  datatype Codec<!M> = Codec(encode: M -> Bytes, decode: Bytes -> Option<M>)

  /** The message survives: its text reads back as it, and cut off it does not read as
      something else. This is asked of the one message that is sent, not of all. */
  ghost predicate Carries<M>(codec: Codec<M>, m: M) {
    && codec.decode(codec.encode(m)) == Some(m)
    && (forall cut :: cut <= codec.encode(m) && codec.decode(cut).Some? ==> codec.decode(cut) == Some(m))
  }

  /** Any message has a codec that carries it: a text, and nothing but that text. */
  lemma CodecExists<M>(m: M) returns (codec: Codec<M>)
    ensures Carries(codec, m)
  {
    codec := Codec((_: M) => "{}", (text: Bytes) => if text == "{}" then Some(m) else None);
  }

  /** multipart.Reader over a body. */
  class PartReader {
    const stream: Stream
    var next: nat

    constructor (stream: Stream)
      ensures this.stream == stream && next == 0
    {
      this.stream, next := stream, 0;
    }

    method NextPart() returns (r: Result<Part, Ending>)
      modifies this
      ensures old(next) < |stream.parts| ==> r == Ok(stream.parts[old(next)]) && next == old(next) + 1
      ensures old(next) >= |stream.parts| ==> r == Err(stream.ending) && next == old(next)
    {
      if next >= |stream.parts| {
        return Err(stream.ending);
      }
      next := next + 1;
      return Ok(stream.parts[next - 1]);
    }
  }

  /** The files on the bridge's disk. Unless it is reliable a create, write or close may
      fail, which `faulty` remembers; a failed write leaves some of the body, or nothing,
      at its path. */
  class OutputDisk {
    const reliable: bool
    var files: map<string, Bytes>
    ghost var faulty: bool

    constructor (files: map<string, Bytes>, reliable: bool)
      ensures this.files == files && this.reliable == reliable && !faulty
    {
      this.files, this.reliable, faulty := files, reliable, false;
    }

    /** One call to the operating system. */
    method CallFails() returns (fails: bool)
      modifies this`faulty
      ensures faulty == (old(faulty) || fails)
      ensures reliable ==> !fails
    {
      fails := *;
      fails := fails && !reliable;
      faulty := faulty || fails;
    }

    /** writeDocumentPart and dispatch's writePagePart: true only once the whole body is
        in place. */
    method WritePart(path: string, part: Part) returns (ok: bool)
      modifies this
      ensures ok ==> part.whole && files == old(files)[path := part.body] && faulty == old(faulty)
      ensures files - {path} == old(files) - {path}
      ensures !ok ==> faulty || !part.whole
      ensures old(faulty) ==> faulty
      ensures reliable ==> faulty == old(faulty)
    {
      var failed := CallFails();
      if failed {
        return false;
      }
      failed := CallFails();
      if failed {
        files := files[path := ""];
        return false;
      }
      files := files[path := part.body];
      ok := part.whole;
    }

    /** Opening and reading a file. */
    method ReadFile(path: string) returns (body: Option<Bytes>)
      modifies this`faulty
      ensures body.Some? ==> path in files && body.value == files[path] && faulty == old(faulty)
      ensures body.None? ==> path !in files || faulty
      ensures old(faulty) ==> faulty
      ensures reliable ==> faulty == old(faulty)
    {
      var failed := CallFails();
      if path !in files || failed {
        return None;
      }
      return Some(files[path]);
    }

    method MakeDirectory() returns (ok: bool)
      modifies this`faulty
      ensures ok ==> faulty == old(faulty)
      ensures !ok ==> faulty
      ensures old(faulty) ==> faulty
      ensures reliable ==> faulty == old(faulty)
    {
      var failed := CallFails();
      return !failed;
    }
  }

  // ----- Writing several files -----

  /** The files after each body has been written at its path, in order. */
  function Put(files: map<string, Bytes>, paths: seq<string>, bodies: seq<Bytes>): map<string, Bytes>
    requires |paths| == |bodies|
  {
    if paths == [] then files else
    var n := |paths| - 1;
    Put(files, paths[..n], bodies[..n])[paths[n] := bodies[n]]
  }

  ghost predicate Distinct(paths: seq<string>) {
    forall i, j | 0 <= i < j < |paths| :: paths[i] != paths[j]
  }

  lemma PutSnoc(files: map<string, Bytes>, paths: seq<string>, bodies: seq<Bytes>, path: string, body: Bytes)
    requires |paths| == |bodies|
    ensures Put(files, paths + [path], bodies + [body]) == Put(files, paths, bodies)[path := body]
  {
    assert (paths + [path])[..|paths|] == paths && (bodies + [body])[..|bodies|] == bodies;
  }

  /** A path that is not written keeps what it had. */
  lemma {:induction false} PutKeeps(files: map<string, Bytes>, paths: seq<string>, bodies: seq<Bytes>, path: string)
    requires |paths| == |bodies| && path !in paths
    ensures path in Put(files, paths, bodies) <==> path in files
    ensures path in files ==> Put(files, paths, bodies)[path] == files[path]
  {
    if paths != [] {
      var n := |paths| - 1;
      PutKeeps(files, paths[..n], bodies[..n], path);
    }
  }

  /** With distinct paths no body overwrites another. */
  lemma {:induction false} PutHolds(files: map<string, Bytes>, paths: seq<string>, bodies: seq<Bytes>)
    requires |paths| == |bodies| && Distinct(paths)
    ensures forall k | 0 <= k < |paths| ::
              paths[k] in Put(files, paths, bodies) && Put(files, paths, bodies)[paths[k]] == bodies[k]
  {
    if paths != [] {
      var n := |paths| - 1;
      PutHolds(files, paths[..n], bodies[..n]);
    }
  }

  function BodiesOf(parts: seq<Part>): seq<Bytes> {
    seq(|parts|, j requires 0 <= j < |parts| => parts[j].body)
  }

  ghost predicate AllWhole(parts: seq<Part>) { forall j | 0 <= j < |parts| :: parts[j].whole }

  // ----- Sending -----

  /** What may arrive of a stream: all of it, or a beginning whose last part may be cut,
      and then an error. */
  ghost predicate Arrives(got: Stream, sent: Stream) {
    || got == sent
    || (got.ending.Broken? && got.parts <= sent.parts)
    || (got.ending.Broken? && got.parts != [] && |got.parts| <= |sent.parts|
        && CutShort(got.parts[|got.parts| - 1], sent.parts[|got.parts| - 1])
        && got.parts[..|got.parts| - 1] == sent.parts[..|got.parts| - 1])
  }

  ghost predicate CutShort(got: Part, sent: Part) {
    !got.whole && got.body <= sent.body && got.contentType == sent.contentType
  }

  /** multipart.Writer: over a buffer it cannot fail, over a connection it can, and then
      leaves a part cut short or no trace of it. */
  class PartWriter {
    const reliable: bool
    var parts: seq<Part>

    constructor (reliable: bool)
      ensures this.reliable == reliable && parts == []
    {
      this.reliable, parts := reliable, [];
    }

    method WritePart(contentType: string, body: Bytes) returns (ok: bool)
      modifies this
      ensures ok ==> parts == old(parts) + [Part(contentType, body, true)]
      ensures reliable ==> ok
      ensures !ok ==> Arrives(Stream(parts, Broken), Stream(old(parts) + [Part(contentType, body, true)], EndOfParts))
    {
      ok := *;
      if reliable || ok {
        parts := parts + [Part(contentType, body, true)];
        return true;
      }
      if * {
        parts := parts + [Part(contentType, "", false)];
        assert parts[..|parts| - 1] == old(parts);
      }
    }

    method Close() returns (ending: Ending)
      ensures reliable ==> ending == EndOfParts
    {
      ending := *;
      if reliable {
        ending := EndOfParts;
      }
    }
  }

  /** What arrives of a beginning may arrive of the whole. */
  lemma ArrivesOfBeginning(got: Stream, begun: seq<Part>, whole: Stream)
    requires Arrives(got, Stream(begun, EndOfParts)) && got.ending.Broken? && begun <= whole.parts
    ensures Arrives(got, whole)
  {}
}
