/** What upstream offers a mirror: the assets of a release under their URLs, the checksum
    listing among them, and when all of it together is a release that can be mirrored. */
module UpstreamReleases {
  import opened Text
  import opened Releases
  import opened CacheProtocol

  const MAX_CHECKSUMS_BYTES := 65_536
  const MAX_ASSET_BYTES := 16_777_216

  /** A checksum listing as parsed: the map and its sorted names. */
  datatype Sums = Sums(of: map<string, string>, names: seq<string>)

  /** The pure functions of the package, as the mirror calls them. What each computes
      is stated and proved elsewhere; the mirror relies only on `Usable`. */
  datatype Library = Library(env: Env, parse: Bytes -> Option<Sums>, tagOk: string -> bool)

  ghost predicate Usable(lib: Library) {
    && (forall r: Release :: lib.env.dir(r) != "")
    && (forall r: Release :: lib.env.loadable(r) ==> MANIFEST_NAME in r.files && !IsStaging(lib.env.dir(r)))
    && (forall r: Release, text: Bytes {:trigger lib.parse(text), Proper(lib.env, r)} ::
          lib.tagOk(r.tag) && lib.parse(text) == Some(Sums(r.sums, r.files)) && MANIFEST_NAME in r.files ==>
            Proper(lib.env, r))
  }

  type Entries = seq<(string, string)>

  /** GitHub's answer, its assets as names with URLs. */
  datatype GhRelease = GhRelease(tagName: string, htmlURL: string, assets: Entries)

  /** The network as one Refresh meets it: `compare` serves the short-circuit's request,
      `get` the later ones. */
  datatype Upstream = Upstream(
    latest: Option<GhRelease>,
    compare: string -> Option<Bytes>,
    get: string -> Option<Bytes>,
    tempSuffix: string,
    now: int)

  datatype Failure =
    | NoLatestRelease
    | UnusableTag
    | NoChecksumsAsset
    | BadChecksums
    | NoManifestListed
    | NoStagingDir
    | NoSuchAsset(name: string)
    | DownloadFailed(name: string)
    | ManifestUnreadable
    | ManifestUnrenderable
    | ParkingBlocked
    | StatFailed
    | SetAsideFailed
    | PublishFailed(restored: bool)
    | ChmodFailed
  {
    /** Failures of the swap, after everything has been downloaded and checked. */
    predicate Swapping() {
      ParkingBlocked? || StatFailed? || SetAsideFailed? || PublishFailed? || ChmodFailed?
    }
  }

  // ----- As the code looks things up -----

  /** The download URLs of a release and what fetching them returns. */
  datatype Assets = Assets(urls: map<string, string>, get: string -> Option<Bytes>) {
    function Body(name: string): Option<Bytes> {
      if name in urls then get(urls[name]) else None
    }
  }

  /** Asset names to URLs; a later entry of the same name wins. */
  function AssetUrls(entries: Entries): map<string, string> {
    if entries == [] then map[]
    else AssetUrls(entries[..|entries| - 1])[entries[|entries| - 1].0 := entries[|entries| - 1].1]
  }

  method CollectUrls(entries: Entries) returns (urls: map<string, string>)
    ensures urls == AssetUrls(entries)
  {
    urls := map[];
    for i := 0 to |entries|
      invariant urls == AssetUrls(entries[..i])
    {
      assert entries[..i + 1][..i] == entries[..i];
      urls := urls[entries[i].0 := entries[i].1];
    }
    assert entries[..|entries|] == entries;
  }

  /** An answer download accepts: a body within the limit with the wanted digest. */
  predicate AcceptedBody(e: Env, body: Option<Bytes>, want: string) {
    body.Some? && |body.value| <= MAX_ASSET_BYTES && e.digestOk(body.value, want)
  }

  predicate Obtainable(e: Env, s: Sums, assets: Assets, name: string) {
    name in s.of && AcceptedBody(e, assets.Body(name), s.of[name])
  }

  ghost predicate AllObtainable(e: Env, s: Sums, assets: Assets) {
    forall n | n in s.names :: Obtainable(e, s, assets, n)
  }

  /** Everything listed can be downloaded, and the manifest renders. */
  ghost predicate Servable(e: Env, s: Sums, assets: Assets) {
    && MANIFEST_NAME in s.names
    && AllObtainable(e, s, assets)
    && e.renders(assets.Body(MANIFEST_NAME).value, s.names)
  }

  /** What is wrong with a listed file. */
  predicate Unservable(e: Env, s: Sums, assets: Assets, why: Failure) {
    match why
    case NoSuchAsset(name) => name in s.names && name !in assets.urls
    case DownloadFailed(name) => name in s.names && name in assets.urls && !Obtainable(e, s, assets, name)
    case ManifestUnrenderable =>
      && MANIFEST_NAME in s.names && Obtainable(e, s, assets, MANIFEST_NAME)
      && !e.renders(assets.Body(MANIFEST_NAME).value, s.names)
    case _ => false
  }

  /** What a checksum request yields: size-limited and parsed. */
  function FetchedSums(lib: Library, answer: Option<Bytes>): Option<Sums> {
    if answer.None? || |answer.value| > MAX_CHECKSUMS_BYTES then None else lib.parse(answer.value)
  }

  function RecordedSum(r: Release, name: string): string {
    if name in r.sums then r.sums[name] else ""
  }

  function ListedSum(s: Sums, name: string): string {
    if name in s.of then s.of[name] else ""
  }

  predicate SameDigest(s: Sums, r: Release, name: string) { EqualFold(ListedSum(s, name), RecordedSum(r, name)) }

  predicate SameChecksums(s: Sums, r: Release) {
    |s.names| == |r.files| && forall n | n in s.names :: SameDigest(s, r, n)
  }

  /** What verifyCached accepts; a release that lists no files needs no directory. */
  ghost predicate CacheVerifies(e: Env, disk: Disk, r: Release) {
    r.sums != map[] && (r.files != [] ==> InPlace(e, disk, r))
  }

  ghost predicate UpToDate(lib: Library, disk: Disk, r: Release, assets: Assets) {
    && CacheVerifies(lib.env, disk, r)
    && FetchedSums(lib, assets.Body(CHECKSUMS_NAME)).Some?
    && SameChecksums(FetchedSums(lib, assets.Body(CHECKSUMS_NAME)).value, r)
  }

  /** A checksum listing that parses, and everything it lists. */
  ghost predicate Offers(lib: Library, assets: Assets) {
    var s := FetchedSums(lib, assets.Body(CHECKSUMS_NAME));
    s.Some? && Servable(lib.env, s.value, assets)
  }

  /** What is wrong with an offer. */
  predicate Lacks(lib: Library, assets: Assets, why: Failure) {
    var s := FetchedSums(lib, assets.Body(CHECKSUMS_NAME));
    match why
    case NoChecksumsAsset => CHECKSUMS_NAME !in assets.urls
    case BadChecksums => CHECKSUMS_NAME in assets.urls && s.None?
    case NoManifestListed => s.Some? && MANIFEST_NAME !in s.value.names
    case _ => s.Some? && Unservable(lib.env, s.value, assets, why)
  }

  lemma LackIsNoOffer(lib: Library, assets: Assets, why: Failure)
    requires Lacks(lib, assets, why)
    ensures !Offers(lib, assets)
  {}

  // ----- The same, said over the list of assets and the answers of the network -----

  /** `name` is linked to `url`: the last entry of that name has it. */
  ghost predicate Links(entries: Entries, name: string, url: string) {
    exists i :: 0 <= i < |entries| && entries[i] == (name, url) && forall j | i < j < |entries| :: entries[j].0 != name
  }

  ghost predicate Named(entries: Entries, name: string) { exists i :: 0 <= i < |entries| && entries[i].0 == name }

  /** The map of URLs has a name exactly when some asset has it, and its URL is that of the
      last such asset. */
  lemma {:induction false} UrlsAreLinks(entries: Entries, name: string, url: string)
    ensures name in AssetUrls(entries) <==> Named(entries, name)
    ensures name in AssetUrls(entries) && AssetUrls(entries)[name] == url <==> Links(entries, name, url)
  {
    if entries != [] {
      var n := |entries| - 1;
      var rest := entries[..n];
      UrlsAreLinks(rest, name, url);
      if entries[n].0 == name {
        assert entries[n] == (name, url) || !Links(entries, name, url);
      } else {
        if Named(rest, name) {
          var i :| 0 <= i < |rest| && rest[i].0 == name;
          assert entries[i].0 == name;
        }
        if Links(rest, name, url) {
          var i :| 0 <= i < |rest| && rest[i] == (name, url) && forall j | i < j < |rest| :: rest[j].0 != name;
          assert entries[i] == (name, url) && forall j | i < j < |entries| :: entries[j].0 != name;
        }
        if Links(entries, name, url) {
          var i :| && 0 <= i < |entries| && entries[i] == (name, url)
                   && forall j | i < j < |entries| :: entries[j].0 != name;
          assert rest[i] == (name, url) && forall j | i < j < |rest| :: rest[j].0 != name;
        }
        if Named(entries, name) {
          var i :| 0 <= i < |entries| && entries[i].0 == name;
          assert rest[i].0 == name;
        }
      }
    }
  }

  /** Asking for the asset `name` brings `body`. */
  ghost predicate Brings(entries: Entries, get: string -> Option<Bytes>, name: string, body: Bytes) {
    exists url :: Links(entries, name, url) && get(url) == Some(body)
  }

  /** `s` is the checksum listing of the release: what SHA256SUMS brings, of at most 64 KiB. */
  ghost predicate ListingOf(lib: Library, entries: Entries, get: string -> Option<Bytes>, s: Sums) {
    exists text :: Brings(entries, get, "SHA256SUMS", text) && |text| <= 65_536 && lib.parse(text) == Some(s)
  }

  /** `body` can be had for a listed file: of at most 16 MiB and with the listed digest. */
  ghost predicate FileOf(lib: Library, entries: Entries, get: string -> Option<Bytes>, s: Sums, name: string,
                         body: Bytes)
  {
    Brings(entries, get, name, body) && |body| <= 16_777_216 && name in s.of && lib.env.digestOk(body, s.of[name])
  }

  /** Everything `s` lists can be had, a manifest that renders is among it. */
  ghost predicate WholeRelease(lib: Library, entries: Entries, get: string -> Option<Bytes>, s: Sums) {
    && ListingOf(lib, entries, get, s)
    && "manifest.json" in s.names
    && (forall n | n in s.names :: exists body :: FileOf(lib, entries, get, s, n, body))
    && (exists manifest ::
          FileOf(lib, entries, get, s, "manifest.json", manifest) && lib.env.renders(manifest, s.names))
  }

  /** Every file `r` lists is in its directory with the digest `r` records. */
  ghost predicate Intact(lib: Library, disk: Disk, r: Release) {
    && r.sums != map[]
    && forall f | f in r.files ::
         && f in r.sums
         && FileAt(disk, lib.env.dir(r), f).Some?
         && lib.env.digestOk(FileAt(disk, lib.env.dir(r), f).value, r.sums[f])
  }

  /** The cached release carries the latest tag, is intact, and upstream lists as many
      files, each with the recorded digest. */
  ghost predicate StillLatest(lib: Library, disk: Disk, r: Release, latest: GhRelease,
                              compare: string -> Option<Bytes>)
  {
    && r.tag == latest.tagName && Intact(lib, disk, r)
    && exists s :: ListingOf(lib, latest.assets, compare, s) && SameListing(s, r)
  }

  predicate SameListing(s: Sums, r: Release) {
    && |s.names| == |r.files|
    && forall n | n in s.names ::
         Lower(if n in s.of then s.of[n] else "") == Lower(if n in r.sums then r.sums[n] else "")
  }

  /** The reason a release is refused. */
  ghost predicate Refused(lib: Library, entries: Entries, get: string -> Option<Bytes>, why: Failure) {
    match why
    case NoChecksumsAsset => !Named(entries, "SHA256SUMS")
    case BadChecksums => Named(entries, "SHA256SUMS") && forall s :: !ListingOf(lib, entries, get, s)
    case NoManifestListed => exists s :: ListingOf(lib, entries, get, s) && "manifest.json" !in s.names
    case NoSuchAsset(name) => exists s :: ListingOf(lib, entries, get, s) && name in s.names && !Named(entries, name)
    case DownloadFailed(name) =>
      exists s :: && ListingOf(lib, entries, get, s) && name in s.names && Named(entries, name)
                  && forall body :: !FileOf(lib, entries, get, s, name, body)
    case ManifestUnrenderable =>
      exists s, manifest :: && ListingOf(lib, entries, get, s) && "manifest.json" in s.names
                            && FileOf(lib, entries, get, s, "manifest.json", manifest)
                            && !lib.env.renders(manifest, s.names)
    case _ => false
  }

  // ----- The two agree -----

  /** What is found under a generation directory. */
  function FileAt(disk: Disk, generation: string, name: string): Option<Bytes> {
    if generation in disk.dirs && name in disk.dirs[generation] then Some(disk.dirs[generation][name]) else None
  }

  function Reached(entries: Entries, get: string -> Option<Bytes>): Assets { Assets(AssetUrls(entries), get) }

  lemma BodyIsBrought(entries: Entries, get: string -> Option<Bytes>, name: string, body: Bytes)
    ensures Reached(entries, get).Body(name) == Some(body) <==> Brings(entries, get, name, body)
  {
    var urls := AssetUrls(entries);
    if name in urls {
      UrlsAreLinks(entries, name, urls[name]);
    }
    if Brings(entries, get, name, body) {
      var url :| Links(entries, name, url) && get(url) == Some(body);
      UrlsAreLinks(entries, name, url);
    }
  }

  lemma FetchedIsListing(lib: Library, entries: Entries, get: string -> Option<Bytes>, s: Sums)
    ensures FetchedSums(lib, Reached(entries, get).Body(CHECKSUMS_NAME)) == Some(s) <==> ListingOf(lib, entries, get, s)
  {
    forall text
      ensures Reached(entries, get).Body(CHECKSUMS_NAME) == Some(text) <==> Brings(entries, get, "SHA256SUMS", text)
    {
      BodyIsBrought(entries, get, CHECKSUMS_NAME, text);
    }
  }

  lemma ObtainableIsFile(lib: Library, entries: Entries, get: string -> Option<Bytes>, s: Sums, name: string,
                         body: Bytes)
    ensures Obtainable(lib.env, s, Reached(entries, get), name) && Reached(entries, get).Body(name) == Some(body) <==>
              FileOf(lib, entries, get, s, name, body)
  {
    BodyIsBrought(entries, get, name, body);
  }

  lemma ObtainableIff(lib: Library, entries: Entries, get: string -> Option<Bytes>, s: Sums, name: string)
    ensures Obtainable(lib.env, s, Reached(entries, get), name) <==>
              exists body :: FileOf(lib, entries, get, s, name, body)
  {
    if Obtainable(lib.env, s, Reached(entries, get), name) {
      ObtainableIsFile(lib, entries, get, s, name, Reached(entries, get).Body(name).value);
    }
    if body :| FileOf(lib, entries, get, s, name, body) {
      ObtainableIsFile(lib, entries, get, s, name, body);
    }
  }

  /** What the code accepts is a whole release, and the other way round. */
  lemma ServableIff(lib: Library, entries: Entries, get: string -> Option<Bytes>, s: Sums)
    requires ListingOf(lib, entries, get, s)
    ensures Servable(lib.env, s, Reached(entries, get)) <==> WholeRelease(lib, entries, get, s)
  {
    var assets := Reached(entries, get);
    forall n | n in s.names
      ensures Obtainable(lib.env, s, assets, n) <==> exists body :: FileOf(lib, entries, get, s, n, body)
    {
      ObtainableIff(lib, entries, get, s, n);
    }
    forall manifest
      ensures FileOf(lib, entries, get, s, "manifest.json", manifest) <==>
                Obtainable(lib.env, s, assets, MANIFEST_NAME) && assets.Body(MANIFEST_NAME) == Some(manifest)
    {
      ObtainableIsFile(lib, entries, get, s, MANIFEST_NAME, manifest);
    }
  }

  lemma OffersIff(lib: Library, entries: Entries, get: string -> Option<Bytes>)
    ensures Offers(lib, Reached(entries, get)) <==> exists s :: WholeRelease(lib, entries, get, s)
  {
    var fetched := FetchedSums(lib, Reached(entries, get).Body(CHECKSUMS_NAME));
    if fetched.Some? {
      FetchedIsListing(lib, entries, get, fetched.value);
      ServableIff(lib, entries, get, fetched.value);
    }
    if s :| WholeRelease(lib, entries, get, s) {
      FetchedIsListing(lib, entries, get, s);
      ServableIff(lib, entries, get, s);
    }
  }

  lemma IntactIff(lib: Library, disk: Disk, r: Release)
    ensures CacheVerifies(lib.env, disk, r) <==> Intact(lib, disk, r)
  {
    if r.files != [] {
      assert r.files[0] in r.files;
    }
    if r.files != [] && InPlace(lib.env, disk, r) {
      forall f | f in r.files
        ensures f in r.sums && FileAt(disk, lib.env.dir(r), f).Some?
        ensures lib.env.digestOk(FileAt(disk, lib.env.dir(r), f).value, r.sums[f])
      {
        assert FileOk(lib.env, disk.dirs[lib.env.dir(r)], r, f);
      }
    }
  }

  lemma UpToDateIff(lib: Library, disk: Disk, r: Release, latest: GhRelease, compare: string -> Option<Bytes>)
    ensures r.tag == latest.tagName && UpToDate(lib, disk, r, Reached(latest.assets, compare)) <==>
              StillLatest(lib, disk, r, latest, compare)
  {
    IntactIff(lib, disk, r);
    var fetched := FetchedSums(lib, Reached(latest.assets, compare).Body(CHECKSUMS_NAME));
    if fetched.Some? {
      FetchedIsListing(lib, latest.assets, compare, fetched.value);
      assert SameChecksums(fetched.value, r) <==> SameListing(fetched.value, r) by {
        forall n | n in fetched.value.names
          ensures SameDigest(fetched.value, r, n) <==>
                    Lower(if n in fetched.value.of then fetched.value.of[n] else "") ==
                    Lower(if n in r.sums then r.sums[n] else "")
        {}
      }
    }
    if s :| ListingOf(lib, latest.assets, compare, s) {
      FetchedIsListing(lib, latest.assets, compare, s);
    }
  }

  lemma LackIsRefused(lib: Library, entries: Entries, get: string -> Option<Bytes>, why: Failure)
    requires Lacks(lib, Reached(entries, get), why)
    ensures Refused(lib, entries, get, why)
  {
    var fetched := FetchedSums(lib, Reached(entries, get).Body(CHECKSUMS_NAME));
    UrlsAreLinks(entries, CHECKSUMS_NAME, "");
    if fetched.Some? {
      FetchedIsListing(lib, entries, get, fetched.value);
      UnservableIsRefused(lib, entries, get, fetched.value, why);
    } else if s :| ListingOf(lib, entries, get, s) {
      FetchedIsListing(lib, entries, get, s);
    }
  }

  lemma UnservableIsRefused(lib: Library, entries: Entries, get: string -> Option<Bytes>, s: Sums, why: Failure)
    requires ListingOf(lib, entries, get, s)
    ensures Unservable(lib.env, s, Reached(entries, get), why) ==> Refused(lib, entries, get, why)
  {
    if Unservable(lib.env, s, Reached(entries, get), why) {
      match why
      case NoSuchAsset(name) => UrlsAreLinks(entries, name, "");
      case DownloadFailed(name) =>
        UrlsAreLinks(entries, name, "");
        ObtainableIff(lib, entries, get, s, name);
      case ManifestUnrenderable =>
        ObtainableIsFile(lib, entries, get, s, MANIFEST_NAME, Reached(entries, get).Body(MANIFEST_NAME).value);
    }
  }
}
