/** The mirror with its pure functions filled in: what a release's directory, digests,
    checksum listings and rendered manifests are, and what follows for the panel. */
module Firmware {
  import opened Text
  import opened Releases
  import opened Checksums
  import opened ManifestDoc
  import opened CacheProtocol
  import opened CacheSafety
  import opened CacheRuns
  import opened UpstreamReleases
  import opened FirmwareMirror

  predicate Loadable(r: Release) {
    ValidTag(r.tag) && MANIFEST_NAME in r.files && forall f | f in r.files :: ValidAssetName(f)
  }

  ghost function ParsedSums(text: Bytes): Option<Sums> {
    match Parse(text)
    case Err(_) => None
    case Ok(sums) => Some(Sums(sums, SortedNames(sums.Keys)))
  }

  /** The functions the mirror calls are the package's own. */
  ghost predicate Lawful(lib: Library, sha: Hasher, decode: Bytes -> Option<Json>) {
    && (forall r: Release {:trigger Dir(sha, r)} {:trigger lib.env.dir(r)} :: lib.env.dir(r) == Dir(sha, r))
    && (forall b: Bytes, d: string :: lib.env.digestOk(b, d) == EqualFold(sha(b), d))
    && (forall b: Bytes, fs: seq<string> :: lib.env.renders(b, fs) == Renderable(decode(b), fs))
    && (forall r: Release :: lib.env.loadable(r) == Loadable(r))
    && (forall text: Bytes :: lib.parse(text) == ParsedSums(text))
    && (forall tag: string :: lib.tagOk(tag) == ValidTag(tag))
  }

  /** Such a library exists for every hash and every JSON decoder. */
  lemma LibraryExists(sha: Hasher, decode: Bytes -> Option<Json>) returns (lib: Library)
    ensures Lawful(lib, sha, decode)
  {
    lib := Library(
      Env((r: Release) => Dir(sha, r),
          (b: Bytes, d: string) => EqualFold(sha(b), d),
          (b: Bytes, fs: seq<string>) => Renderable(decode(b), fs),
          (r: Release) => Loadable(r)),
      (text: Bytes) => ParsedSums(text),
      (tag: string) => ValidTag(tag));
  }

  lemma ParsedSumsAreClean(text: Bytes)
    requires ParsedSums(text).Some?
    ensures CleanSums(ParsedSums(text).value.of) && ParsedSums(text).value.of != map[]
    ensures Lists(ParsedSums(text).value.names, ParsedSums(text).value.of.Keys)
  {
    ParseSound(text);
  }

  lemma DirIsNotStaging(sha: Hasher, r: Release)
    requires ValidTag(r.tag)
    ensures !IsStaging(Dir(sha, r))
  {
    assert Dir(sha, r)[0] == r.tag[0];
  }

  /** A release made of a usable tag and a parsed listing is well formed. */
  lemma BuiltReleaseIsWellFormed(r: Release, text: Bytes)
    requires ValidTag(r.tag) && ParsedSums(text) == Some(Sums(r.sums, r.files)) && MANIFEST_NAME in r.files
    ensures WellFormed(r)
  {
    ParsedSumsAreClean(text);
  }

  lemma WellFormedIsProper(lib: Library, sha: Hasher, decode: Bytes -> Option<Json>, r: Release)
    requires Lawful(lib, sha, decode) && WellFormed(r)
    ensures Proper(lib.env, r)
  {
    DirIsNotStaging(sha, r);
    assert lib.env.dir(r) == Dir(sha, r);
    assert Loadable(r);
  }

  /** The package's own functions are all the mirror needs. */
  lemma LawfulIsUsable(lib: Library, sha: Hasher, decode: Bytes -> Option<Json>)
    requires Lawful(lib, sha, decode)
    ensures Usable(lib)
  {
    forall r: Release ensures lib.env.dir(r) != "" {
      assert lib.env.dir(r) == Dir(sha, r);
    }
    forall r: Release | lib.env.loadable(r) ensures MANIFEST_NAME in r.files && !IsStaging(lib.env.dir(r)) {
      DirIsNotStaging(sha, r);
    }
    forall r: Release, text: Bytes |
      lib.tagOk(r.tag) && lib.parse(text) == Some(Sums(r.sums, r.files)) && MANIFEST_NAME in r.files
      ensures Proper(lib.env, r)
    {
      BuiltReleaseIsWellFormed(r, text);
      WellFormedIsProper(lib, sha, decode, r);
    }
  }

  // ----- What upstream has to offer -----

  /** SHA256SUMS brings a text that parses to `s`. */
  ghost predicate ListingParses(entries: Entries, get: string -> Option<Bytes>, s: Sums) {
    && (exists text :: Brings(entries, get, "SHA256SUMS", text) && |text| <= 65_536 && Parse(text) == Ok(s.of))
    && Lists(s.names, s.of.Keys)
  }

  /** `body` is what the listed file `n` brings, and it hashes to the listed digest. */
  ghost predicate FileHashes(sha: Hasher, entries: Entries, get: string -> Option<Bytes>, s: Sums, n: string,
                             body: Bytes)
  {
    Brings(entries, get, n, body) && |body| <= 16_777_216 && n in s.of && Lower(sha(body)) == Lower(s.of[n])
  }

  lemma ListingIff(lib: Library, sha: Hasher, decode: Bytes -> Option<Json>, entries: Entries,
                   get: string -> Option<Bytes>, s: Sums)
    requires Lawful(lib, sha, decode)
    ensures ListingOf(lib, entries, get, s) <==> ListingParses(entries, get, s)
  {
    forall text
      ensures lib.parse(text) == Some(s) <==> Parse(text) == Ok(s.of) && Lists(s.names, s.of.Keys)
    {
      assert lib.parse(text) == ParsedSums(text);
      if Lists(s.names, s.of.Keys) {
        ListsUnique(s.names, SortedNames(s.of.Keys), s.of.Keys);
      }
    }
  }

  lemma FileIff(lib: Library, sha: Hasher, decode: Bytes -> Option<Json>, entries: Entries,
                get: string -> Option<Bytes>, s: Sums, n: string, body: Bytes)
    requires Lawful(lib, sha, decode)
    ensures FileOf(lib, entries, get, s, n, body) <==> FileHashes(sha, entries, get, s, n, body)
  {}

  /** Everything listed can be had, a manifest that renders is among it. */
  ghost predicate ReleaseIsServable(sha: Hasher, decode: Bytes -> Option<Json>, entries: Entries,
                                    get: string -> Option<Bytes>, s: Sums)
  {
    && ListingParses(entries, get, s) && "manifest.json" in s.of
    && (forall n | n in s.of :: exists body :: FileHashes(sha, entries, get, s, n, body))
    && (exists manifest :: && FileHashes(sha, entries, get, s, "manifest.json", manifest)
                           && Renderable(decode(manifest), s.names))
  }

  lemma SameInOtherTerms(lib: Library, sha: Hasher, decode: Bytes -> Option<Json>, entries: Entries,
                         get: string -> Option<Bytes>, s: Sums)
    requires ListingOf(lib, entries, get, s) <==> ListingParses(entries, get, s)
    requires forall n, body :: FileOf(lib, entries, get, s, n, body) <==> FileHashes(sha, entries, get, s, n, body)
    requires forall manifest :: lib.env.renders(manifest, s.names) == Renderable(decode(manifest), s.names)
    ensures WholeRelease(lib, entries, get, s) <==> ReleaseIsServable(sha, decode, entries, get, s)
  {}

  /** A release is whole, in the package's own terms: SHA256SUMS parses and lists the
      manifest, every listed file can be had and hashes to its listed digest, and the
      manifest renders for the listed files. */
  lemma WholeReleaseIff(lib: Library, sha: Hasher, decode: Bytes -> Option<Json>, entries: Entries,
                        get: string -> Option<Bytes>, s: Sums)
    requires Lawful(lib, sha, decode)
    ensures WholeRelease(lib, entries, get, s) <==> ReleaseIsServable(sha, decode, entries, get, s)
  {
    ListingIff(lib, sha, decode, entries, get, s);
    forall n, body
      ensures FileOf(lib, entries, get, s, n, body) <==> FileHashes(sha, entries, get, s, n, body)
    {
      FileIff(lib, sha, decode, entries, get, s, n, body);
    }
    SameInOtherTerms(lib, sha, decode, entries, get, s);
  }

  /** What a restart adopts, in the package's own terms: the recorded release, if its tag and
      names are valid, its manifest is listed, and every listed file hashes to its sum. */
  lemma AdoptedIff(lib: Library, sha: Hasher, decode: Bytes -> Option<Json>, disk: Disk, r: Release)
    requires Lawful(lib, sha, decode)
    ensures Adopted(lib.env, disk) == Some(r) <==>
              && disk.state == Recorded(r)
              && ValidTag(r.tag) && "manifest.json" in r.files && r.sums != map[]
              && forall f | f in r.files ::
                   && ValidAssetName(f) && f in r.sums
                   && FileAt(disk, Dir(sha, r), f).Some?
                   && Lower(sha(FileAt(disk, Dir(sha, r), f).value)) == Lower(r.sums[f])
  {
    var dir := Dir(sha, r);
    assert lib.env.dir(r) == dir && lib.env.loadable(r) == Loadable(r);
    if dir in disk.dirs {
      forall f | f in r.files
        ensures FileOk(lib.env, disk.dirs[dir], r, f) <==>
                  && f in r.sums && FileAt(disk, dir, f).Some?
                  && Lower(sha(FileAt(disk, dir, f).value)) == Lower(r.sums[f])
      {
        if f in r.sums && f in disk.dirs[dir] {
          assert lib.env.digestOk(disk.dirs[dir][f], r.sums[f]) == EqualFold(sha(disk.dirs[dir][f]), r.sums[f]);
        }
      }
    } else if "manifest.json" in r.files {
      assert FileAt(disk, dir, "manifest.json").None?;
    }
  }

  // ----- The short-circuit -----

  lemma SameDigestMeansListed(s: Sums, r: Release, n: string)
    requires CleanSums(s.of) && CleanSums(r.sums) && n in s.of
    ensures SameDigest(s, r, n) <==> n in r.sums && s.of[n] == r.sums[n]
  {
    LowerIsIdentity(s.of[n]);
    if n in r.sums {
      LowerIsIdentity(r.sums[n]);
    } else {
      assert |Lower("")| != |Lower(s.of[n])|;
    }
  }

  /** What the comparison settles for any cached release: the upstream sums are part of
      the recorded ones, and they are all of them just when the file list is as long as
      the record. */
  lemma UnchangedMeansIncluded(s: Sums, r: Release)
    requires CleanSums(s.of) && CleanSums(r.sums) && Lists(s.names, s.of.Keys) && SameChecksums(s, r)
    ensures forall n | n in s.of :: n in r.sums && s.of[n] == r.sums[n]
    ensures s.of == r.sums <==> |r.files| == |r.sums|
  {
    ListsLength(s.names, s.of.Keys);
    forall n | n in s.of
      ensures n in r.sums && s.of[n] == r.sums[n]
    {
      assert n in s.names;
      SameDigestMeansListed(s, r, n);
    }
    if |r.files| == |r.sums| {
      SubsetOfSameSize(s.of.Keys, r.sums.Keys);
    }
  }

  /** A release whose state file records a sum it does not list as a file can be adopted,
      and compares as unchanged with a listing that differs from its record. */
  lemma UnchangedCanDiffer(digest: Digest) returns (s: Sums, r: Release)
    ensures Loadable(r) && CleanSums(r.sums) && |r.files| == 1
    ensures CleanSums(s.of) && Lists(s.names, s.of.Keys) && MANIFEST_NAME in s.names
    ensures SameChecksums(s, r) && s.of != r.sums
  {
    var only: map<string, string> := map[MANIFEST_NAME := digest];
    var extra := "x";
    s := Sums(only, [MANIFEST_NAME]);
    r := Release("v", [MANIFEST_NAME], 0, only[extra := digest], "");
    ManifestIsAssetName();
    assert extra in r.sums && extra !in s.of;
  }

  lemma ManifestIsAssetName()
    ensures ValidAssetName(MANIFEST_NAME) && '\n' !in MANIFEST_NAME
  {
    assert MANIFEST_NAME[0] != '.';
  }

  /** With a well-formed cached release, "unchanged" means that the upstream checksums
      are exactly the recorded ones: equal length and a match per name leave no room
      for a file on one side only. */
  lemma ShortCircuitIsExact(s: Sums, r: Release)
    requires WellFormed(r) && CleanSums(s.of) && Lists(s.names, s.of.Keys)
    ensures SameChecksums(s, r) <==> s.of == r.sums
  {
    ListsLength(s.names, s.of.Keys);
    ListsLength(r.files, r.sums.Keys);
    if SameChecksums(s, r) {
      UnchangedMeansIncluded(s, r);
    } else if s.of == r.sums {
      forall n | n in s.names
        ensures SameDigest(s, r, n)
      {
        SameDigestMeansListed(s, r, n);
      }
    }
  }

  lemma SubsetOfSameSize(a: set<string>, b: set<string>)
    requires a <= b && |a| == |b|
    ensures a == b
  {
    assert |b - a| == |b| - |a|;
  }

  /** An unchanged listing under an unchanged tag makes the same release: the same files
      in the same order, and the same generation name. */
  lemma UnchangedListingSameGeneration(sha: Hasher, r: Release, offered: Release, s: Sums)
    requires WellFormed(r) && offered.tag == r.tag && offered.sums == s.of && offered.files == s.names
    requires CleanSums(s.of) && Lists(s.names, s.of.Keys) && SameChecksums(s, r)
    ensures offered.sums == r.sums && offered.files == r.files && Dir(sha, offered) == Dir(sha, r)
  {
    ShortCircuitIsExact(s, r);
    ListsUnique(s.names, r.files, s.of.Keys);
  }

  /** A body that has the digest recorded for a verified cached file hashes like that file. */
  lemma CachedFileHashesAlike(lib: Library, sha: Hasher, decode: Bytes -> Option<Json>, disk: Disk, r: Release,
                              n: string, body: Bytes)
    requires Lawful(lib, sha, decode) && WellFormed(r) && InPlace(lib.env, disk, r)
    requires n in r.sums && lib.env.digestOk(body, r.sums[n])
    ensures FileAt(disk, Dir(sha, r), n).Some? && sha(FileAt(disk, Dir(sha, r), n).value) == sha(body)
  {
    assert lib.env.dir(r) == Dir(sha, r);
    var files := disk.dirs[lib.env.dir(r)];
    assert n in r.files;
    assert FileOk(lib.env, files, r, n);
    LowerIsIdentity(sha(files[n]));
    LowerIsIdentity(sha(body));
  }

  /** The download the short-circuit skips would have had the same generation name,
      and each file would have hashed to the digest of the one already cached. */
  lemma SkippedDownloadWouldMatch(lib: Library, sha: Hasher, decode: Bytes -> Option<Json>, disk: Disk, r: Release,
                                  offered: Release, assets: Assets)
    requires Lawful(lib, sha, decode) && WellFormed(r) && UpToDate(lib, disk, r, assets) && offered.tag == r.tag
    requires FetchedSums(lib, assets.Body(CHECKSUMS_NAME)) == Some(Sums(offered.sums, offered.files))
    ensures Dir(sha, offered) == Dir(sha, r) && offered.files == r.files
    ensures forall n, body | n in offered.files && lib.env.digestOk(body, offered.sums[n]) ::
              FileAt(disk, Dir(sha, r), n).Some? && sha(FileAt(disk, Dir(sha, r), n).value) == sha(body)
  {
    ParsedSumsAreClean(assets.Body(CHECKSUMS_NAME).value);
    UnchangedListingSameGeneration(sha, r, offered, Sums(offered.sums, offered.files));
    forall n, body | n in offered.files && lib.env.digestOk(body, offered.sums[n])
      ensures FileAt(disk, Dir(sha, r), n).Some? && sha(FileAt(disk, Dir(sha, r), n).value) == sha(body)
    {
      CachedFileHashesAlike(lib, sha, decode, disk, r, n, body);
    }
  }

  ghost predicate SamePrefix(sha: Hasher, r: Release, q: Release) {
    sha(CanonicalText(r.sums))[..12] == sha(CanonicalText(q.sums))[..12]
  }

  lemma SameDirSameSums(sha: Hasher, r: Release, q: Release)
    requires Dir(sha, r) == Dir(sha, q) && CleanSums(r.sums) && CleanSums(q.sums)
    requires SamePrefix(sha, r, q) ==> CanonicalText(r.sums) == CanonicalText(q.sums)
    ensures r.sums == q.sums
  {
    EqualDirEqualTag(sha, r, q);
    CanonicalTextInjective(r.sums, q.sums);
  }

  /** If the hash prefix separates the listings of some releases, their directories do. */
  lemma NoHashCollisionNoDirCollision(lib: Library, sha: Hasher, decode: Bytes -> Option<Json>, rels: set<Release>)
    requires Lawful(lib, sha, decode) && forall r | r in rels :: CleanSums(r.sums)
    requires forall r, q | r in rels && q in rels && SamePrefix(sha, r, q) ::
               CanonicalText(r.sums) == CanonicalText(q.sums)
    ensures NoCollisions(lib.env, rels)
  {
    forall r, q | r in rels && q in rels && lib.env.dir(r) == lib.env.dir(q)
      ensures r.sums == q.sums
    {
      assert Dir(sha, r) == Dir(sha, q);
      SameDirSameSums(sha, r, q);
    }
  }

  // ----- What the panel gets -----

  /** A path read from a manifest of release `r` is accepted by OpenAt and returns bytes
      that hash to what `r` recorded, until two further generations are published. */
  lemma PublishedUrlResolves(lib: Library, sha: Hasher, decode: Bytes -> Option<Json>, hist: seq<Sys>,
                             acts: seq<Action>, i: nat, j: nat, r: Release, before: Json, after: Json, b: nat)
    returns (name: string)
    requires Lawful(lib, sha, decode) && SoundRun(lib.env, hist, acts) && i <= j <= |acts|
    requires hist[i].current == Some(r)
    requires hist[j].generations <= hist[i].generations + 1 && hist[j].blind == hist[i].blind
    requires lib.env.dir(r) !in Suspect(hist[j])
    requires Renderable(Some(before), r.files) && Redirected(before, after, Dir(sha, r), r.files)
    requires b < |Builds(Some(before)).value|
    ensures after.fields["builds"].items[b].fields["ota"].fields["path"] == Str("/firmware/" + Dir(sha, r) + "/" + name)
    ensures ValidTag(Dir(sha, r)) && ValidAssetName(name) && name in r.sums
    ensures FileAt(hist[j].disk, Dir(sha, r), name).Some?
    ensures EqualFold(sha(FileAt(hist[j].disk, Dir(sha, r), name).value), r.sums[name])
  {
    PublishedFilesStay(lib.env, hist, acts, i, j, r);
    assert lib.env.dir(r) == Dir(sha, r) && Loadable(r);
    DirIsValidTag(sha, r);
    name := BuildTarget(Builds(Some(before)).value[b], b, r.files).value;
    RedirectedTarget(before, after, Dir(sha, r), r.files, b);
    var files := hist[j].disk.dirs[Dir(sha, r)];
    assert FileOk(lib.env, files, r, name);
    assert lib.env.digestOk(files[name], r.sums[name]) == EqualFold(sha(files[name]), r.sums[name]);
  }

  /** The same for a mirror: a path read from a manifest it rendered for a release that was
      current at an earlier point is one OpenAt accepts and finds, with the recorded hash. */
  lemma MirrorResolvesPublishedUrls(m: Mirror, sha: Hasher, decode: Bytes -> Option<Json>, p: Run, r: Release,
                                    before: Json, after: Json, b: nat)
    returns (name: string)
    requires Lawful(m.lib, sha, decode) && m.Valid() && SoundFrom(m.e, m.run)
    requires Earlier(p, m.run) && p.Last().current == Some(r)
    requires m.Now().generations <= p.Last().generations + 1 && m.Now().blind == p.Last().blind
    requires m.e.dir(r) !in Suspect(m.Now())
    requires Renderable(Some(before), r.files) && Redirected(before, after, Dir(sha, r), r.files)
    requires b < |Builds(Some(before)).value|
    ensures after.fields["builds"].items[b].fields["ota"].fields["path"] == Str("/firmware/" + Dir(sha, r) + "/" + name)
    ensures ValidTag(Dir(sha, r)) && ValidAssetName(name) && name in r.sums
    ensures FileAt(m.disk, Dir(sha, r), name).Some?
    ensures EqualFold(sha(FileAt(m.disk, Dir(sha, r), name).value), r.sums[name])
  {
    SoundFromIsSoundRun(m.e, m.run);
    EarlierHistory(p, m.run);
    name := PublishedUrlResolves(m.lib, sha, decode, m.run.Hist(), m.run.Acts(), |p.Acts()|, |m.run.Acts()|, r,
                                 before, after, b);
  }

  /** Whenever the published release is in place, its manifest can be rendered: a
      reader that finds the file never gets a rendering error. */
  lemma CurrentManifestRenders(lib: Library, sha: Hasher, decode: Bytes -> Option<Json>, hist: seq<Sys>,
                               acts: seq<Action>, k: nat, r: Release)
    requires Lawful(lib, sha, decode) && SoundRun(lib.env, hist, acts) && k <= |acts|
    requires hist[k].current == Some(r) && lib.env.dir(r) !in Suspect(hist[k])
    ensures FileAt(hist[k].disk, Dir(sha, r), MANIFEST_NAME).Some?
    ensures Renderable(decode(FileAt(hist[k].disk, Dir(sha, r), MANIFEST_NAME).value), r.files)
  {
    var q := PublishedManifestWasRendered(lib.env, hist, acts, k, r);
    assert lib.env.dir(r) == Dir(sha, r);
    RenderableForSameFiles(decode(hist[k].disk.dirs[Dir(sha, r)][MANIFEST_NAME]), q.files, r.files);
  }

  lemma RenderableForSameFiles(doc: Option<Json>, fs: seq<string>, gs: seq<string>)
    requires Renderable(doc, fs) && forall f :: f in fs <==> f in gs
    ensures Renderable(doc, gs)
  {
    forall i | 0 <= i < |Builds(doc).value| ensures BuildTarget(Builds(doc).value[i], i, gs).Ok? {
      assert BuildTarget(Builds(doc).value[i], i, fs).Ok?;
    }
  }

  datatype ServeError = NothingCached | NotThere | ReadFailed | Unrenderable(reason: RenderError)

  /** Manifest: reads the published release's manifest and redirects its builds. */
  method ServeManifest(m: Mirror, sha: Hasher, decode: Bytes -> Option<Json>)
    returns (r: Result<(Json, Release), ServeError>)
    requires Lawful(m.lib, sha, decode) && m.Valid()
    ensures r.Ok? ==>
              && m.current == Some(r.value.1)
              && FileAt(m.disk, Dir(sha, r.value.1), MANIFEST_NAME).Some?
              && var doc := decode(FileAt(m.disk, Dir(sha, r.value.1), MANIFEST_NAME).value);
                 && Renderable(doc, r.value.1.files)
                 && Redirected(doc.value, r.value.0, Dir(sha, r.value.1), r.value.1.files)
    ensures r == Err(NothingCached) <==> m.current.None?
    ensures r == Err(NotThere) <==> m.current.Some? && FileAt(m.disk, Dir(sha, m.current.value), MANIFEST_NAME).None?
    ensures r.Err? && r.error.Unrenderable? ==>
              && m.current.Some? && FileAt(m.disk, Dir(sha, m.current.value), MANIFEST_NAME).Some?
              && var raw := FileAt(m.disk, Dir(sha, m.current.value), MANIFEST_NAME).value;
                 !Renderable(decode(raw), m.current.value.files)
    ensures r == Err(ReadFailed) ==> !m.reliable
  {
    if m.current.None? {
      return Err(NothingCached);
    }
    var rel := m.current.value;
    var dir := DirName(sha, rel);
    var raw := FileAt(m.disk, dir, MANIFEST_NAME);
    if raw.None? {
      return Err(NotThere);
    }
    var fails := m.CallFails();
    if fails {
      return Err(ReadFailed);
    }
    var doc := RenderManifest(decode(raw.value), rel.files, dir);
    match doc
    case Err(reason) => return Err(Unrenderable(reason));
    case Ok(rendered) => return Ok((rendered, rel));
  }
}
