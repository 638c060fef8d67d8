/** The cache directory as a protocol of single file-system calls.

    The state is the directory itself, the published release, and what a proof
    needs to remember. Every call Refresh, Load or prune makes is one Action with
    a guard; a crash or a reader may fall between any two of them. */
module CacheProtocol {
  import opened Text
  import opened Releases

  type Files = map<string, Bytes>

  /** state.json as Load finds it: absent, not decodable, or a recorded release. */
  datatype StateFile = NoState | BadState | Recorded(rel: Release)

  /** `temp` is state.json.tmp. */
  datatype Disk = Disk(dirs: map<string, Files>, state: StateFile, temp: StateFile)

  /** What the protocol depends on and never looks into: the directory name of a
      release, whether bytes have a digest, whether a manifest can be rendered for
      a list of files, and the name checks Load repeats. */
  datatype Env = Env(
    dir: Release -> string,
    digestOk: (Bytes, string) -> bool,
    renders: (Bytes, seq<string>) -> bool,
    loadable: Release -> bool)

  const STAGING_PREFIX := ".staging-"

  predicate IsStaging(name: string) { STAGING_PREFIX <= name }

  function Parked(dir: string): string { STAGING_PREFIX + "replaced-" + dir }

  predicate FileOk(e: Env, files: Files, r: Release, f: string) {
    f in r.sums && f in files && e.digestOk(files[f], r.sums[f])
  }

  /** What verifyCached accepts. */
  ghost predicate Verified(e: Env, files: Files, r: Release) {
    r.sums != map[] && forall f | f in r.files :: FileOk(e, files, r, f)
  }

  /** Every file there is belongs to `r` and has the digest `r` records for it. */
  ghost predicate Matches(e: Env, files: Files, r: Release) {
    forall f | f in files :: f in r.sums && e.digestOk(files[f], r.sums[f])
  }

  /** Files of `r` only, checked, and if the manifest is among them it can be rendered. */
  ghost predicate Authentic(e: Env, files: Files, r: Release) {
    Matches(e, files, r) && (MANIFEST_NAME in files ==> e.renders(files[MANIFEST_NAME], r.files))
  }

  /** A release whose file list is the key set of its checksums, as Refresh builds it. */
  ghost predicate Proper(e: Env, r: Release) {
    && (forall f :: f in r.files <==> f in r.sums)
    && MANIFEST_NAME in r.files
    && e.loadable(r)
    && !IsStaging(e.dir(r))
  }

  /** Exactly the files of `r`, each checked, and a manifest that can be rendered. */
  ghost predicate CheckedCopy(e: Env, files: Files, r: Release) {
    && Proper(e, r)
    && files.Keys == r.sums.Keys
    && Authentic(e, files, r)
  }

  // ----- What a restart and a reader see -----

  /** Every file of the release stands in its directory with its own digest. */
  ghost predicate InPlace(e: Env, disk: Disk, r: Release) {
    e.dir(r) in disk.dirs && Verified(e, disk.dirs[e.dir(r)], r)
  }

  ghost predicate Adoptable(e: Env, disk: Disk, r: Release) { e.loadable(r) && InPlace(e, disk, r) }

  /** The release a new process adopts from `disk`. */
  ghost function Adopted(e: Env, disk: Disk): Option<Release> {
    if disk.state.Recorded? && Adoptable(e, disk, disk.state.rel) then Some(disk.state.rel) else None
  }

  // ----- State and actions -----

  datatype Sys = Sys(
    disk: Disk,
    current: Option<Release>,    // what this process serves
    served: Option<Release>,     // what was served last, by this process or an earlier one
    previous: Option<Release>,   // the different generation `served` replaced
    aside: Option<string>,       // generation moved to its parking name, not yet replaced or restored
    lost: set<string>,           // generations whose restore failed
    damaged: set<string>,        // generations something outside has touched
    checked: set<Release>,       // releases downloaded, checked and rendered so far
    publications: nat,           // refreshes that published
    generations: nat,            // times the directory being served changed
    blind: nat)                  // publications by a process that had adopted nothing

  datatype Action =
    | SetStaging(name: string, files: Files)
    | DropStaging(name: string)
    | SetAside(dir: string)
    | Install(name: string, rel: Release)
    | Restore(dir: string)
    | GiveUp(dir: string)
    | Publish(rel: Release)
    | Adopt(rel: Release)
    | Restart
    | WriteTemp(content: StateFile)
    | Record
    | EvictFile(dir: string, file: string)
    | EvictDir(dir: string)
    | Damage(dir: string, found: Option<Files>)

  function AsideSet(s: Sys): set<string> {
    if s.aside.Some? then {s.aside.value} else {}
  }

  /** Generations whose content is not vouched for. */
  function Suspect(s: Sys): set<string> { AsideSet(s) + s.lost + s.damaged }

  ghost predicate KeptDir(e: Env, s: Sys, dir: string) {
    || (s.served.Some? && e.dir(s.served.value) == dir)
    || (s.previous.Some? && e.dir(s.previous.value) == dir)
  }

  predicate FreeStaging(s: Sys, name: string) {
    IsStaging(name) && (s.aside.Some? ==> name != Parked(s.aside.value))
  }

  ghost predicate Evictable(e: Env, s: Sys, dir: string) {
    && dir in s.disk.dirs && !IsStaging(dir)
    && s.aside.None? && s.current.Some? && !KeptDir(e, s, dir)
  }

  ghost predicate CanSetAside(s: Sys, dir: string) {
    s.aside.None? && dir in s.disk.dirs && !IsStaging(dir) && Parked(dir) !in s.disk.dirs
  }

  ghost predicate CanInstall(e: Env, s: Sys, name: string, rel: Release) {
    && FreeStaging(s, name) && name in s.disk.dirs
    && CheckedCopy(e, s.disk.dirs[name], rel)
    && e.dir(rel) !in s.disk.dirs
    && (s.aside.Some? ==> s.aside.value == e.dir(rel))
  }

  ghost predicate CanRestore(s: Sys, dir: string) {
    s.aside == Some(dir) && dir !in s.disk.dirs && Parked(dir) in s.disk.dirs
  }

  ghost predicate CanPublish(e: Env, s: Sys, rel: Release) {
    && s.aside.None?
    && e.dir(rel) in s.disk.dirs && Verified(e, s.disk.dirs[e.dir(rel)], rel)
    && rel in s.checked
  }

  ghost predicate Enabled(e: Env, s: Sys, a: Action) {
    match a
    case SetStaging(name, files) => FreeStaging(s, name)
    case DropStaging(name) => FreeStaging(s, name)
    case SetAside(dir) => CanSetAside(s, dir)
    case Install(name, rel) => CanInstall(e, s, name, rel)
    case Restore(dir) => CanRestore(s, dir)
    case GiveUp(dir) => s.aside == Some(dir) && dir !in s.disk.dirs
    case Publish(rel) => CanPublish(e, s, rel)
    case Adopt(rel) => s.aside.None? && Adopted(e, s.disk) == Some(rel)
    case Restart => true
    case WriteTemp(content) => true
    case Record => s.disk.temp.Recorded? && s.current == Some(s.disk.temp.rel)
    case EvictFile(dir, file) => Evictable(e, s, dir)
    case EvictDir(dir) => Evictable(e, s, dir)
    case Damage(dir, found) => s.aside.None? && !IsStaging(dir)
  }

  function WithDirs(s: Sys, dirs: map<string, Files>): Sys { s.(disk := s.disk.(dirs := dirs)) }

  /** A directory renamed. */
  function Moved(dirs: map<string, Files>, from: string, to: string): map<string, Files>
    requires from in dirs
  {
    (dirs - {from})[to := dirs[from]]
  }

  ghost function Installed(e: Env, s: Sys, name: string, rel: Release): Sys
    requires name in s.disk.dirs
  {
    var dir := e.dir(rel);
    WithDirs(s, Moved(s.disk.dirs, name, dir)).(
      aside := None, lost := s.lost - {dir}, damaged := s.damaged - {dir}, checked := s.checked + {rel})
  }

  ghost predicate Other(e: Env, now: Option<Release>, rel: Release) {
    now.None? || e.dir(now.value) != e.dir(rel)
  }

  /** A refresh publishes. It knows of no predecessor when its process adopted nothing,
      and will then evict whatever was served before. */
  ghost function Published(e: Env, s: Sys, rel: Release): Sys {
    var moved := Other(e, s.current, rel);
    s.(current := Some(rel), served := Some(rel), previous := if moved then s.current else s.previous,
       publications := s.publications + 1, generations := s.generations + if moved then 1 else 0,
       blind := s.blind + if s.current.None? then 1 else 0)
  }

  /** A new process takes over what state.json names; nothing is evicted until it publishes. */
  ghost function TakenOver(e: Env, s: Sys, rel: Release): Sys {
    var moved := Other(e, s.served, rel);
    s.(current := Some(rel), served := Some(rel), previous := if moved then s.served else s.previous,
       generations := s.generations + if moved then 1 else 0)
  }

  /** A process ends, wherever it is, and the next one starts on the directory as left. */
  function Rebooted(s: Sys): Sys {
    s.(current := None, aside := None, lost := s.lost + AsideSet(s))
  }

  function FileEvicted(s: Sys, dir: string, file: string): Sys
    requires dir in s.disk.dirs
  {
    WithDirs(s, s.disk.dirs[dir := s.disk.dirs[dir] - {file}])
  }

  function Damaged(s: Sys, dir: string, found: Option<Files>): Sys {
    WithDirs(s, if found.Some? then s.disk.dirs[dir := found.value] else s.disk.dirs - {dir}).(
      lost := s.lost - {dir}, damaged := s.damaged + {dir})
  }

  ghost function Apply(e: Env, s: Sys, a: Action): Sys
    requires Enabled(e, s, a)
  {
    match a
    case SetStaging(name, files) => WithDirs(s, s.disk.dirs[name := files])
    case DropStaging(name) => WithDirs(s, s.disk.dirs - {name})
    case SetAside(dir) => WithDirs(s, Moved(s.disk.dirs, dir, Parked(dir))).(aside := Some(dir))
    case Install(name, rel) => Installed(e, s, name, rel)
    case Restore(dir) => WithDirs(s, Moved(s.disk.dirs, Parked(dir), dir)).(aside := None)
    case GiveUp(dir) => s.(aside := None, lost := s.lost + {dir})
    case Publish(rel) => Published(e, s, rel)
    case Adopt(rel) => TakenOver(e, s, rel)
    case Restart => Rebooted(s)
    case WriteTemp(content) => s.(disk := s.disk.(temp := content))
    case Record => s.(disk := s.disk.(state := s.disk.temp, temp := NoState))
    case EvictFile(dir, file) => FileEvicted(s, dir, file)
    case EvictDir(dir) => WithDirs(s, s.disk.dirs - {dir})
    case Damage(dir, found) => Damaged(s, dir, found)
  }

  // ----- The invariant -----

  /** `files` may stand under `dir`: the bytes belong to a checked release of that
      name, and they are complete for a generation that must stay servable. */
  ghost predicate Faithful(e: Env, s: Sys, dir: string, files: Files) {
    && (exists r :: r in s.checked && e.dir(r) == dir && Authentic(e, files, r))
    && (s.served.Some? && e.dir(s.served.value) == dir ==> Verified(e, files, s.served.value))
    && (s.previous.Some? && e.dir(s.previous.value) == dir ==> Verified(e, files, s.previous.value))
  }

  ghost predicate KnownReleases(e: Env, s: Sys) {
    && (forall r | r in s.checked :: Proper(e, r))
    && (s.current.Some? ==> s.served == s.current)
    && (s.served.Some? ==> s.served.value in s.checked)
    && (s.previous.Some? ==> s.previous.value in s.checked && s.served.Some?
                             && e.dir(s.previous.value) != e.dir(s.served.value))
    && (s.disk.state.Recorded? ==> s.disk.state.rel in s.checked)
  }

  ghost predicate SoundDirs(e: Env, s: Sys) {
    && (forall d | d in s.disk.dirs && !IsStaging(d) && d !in Suspect(s) :: Faithful(e, s, d, s.disk.dirs[d]))
    && (forall d | KeptDir(e, s, d) && d !in Suspect(s) :: d in s.disk.dirs)
    && (forall d | d in s.lost :: d !in s.disk.dirs && !IsStaging(d))
  }

  ghost predicate SoundAside(e: Env, s: Sys) {
    s.aside.Some? ==>
      var d := s.aside.value;
      && !IsStaging(d) && d !in s.disk.dirs && Parked(d) in s.disk.dirs && d !in s.lost
      && (d !in s.damaged ==> Faithful(e, s, d, s.disk.dirs[Parked(d)]))
  }

  ghost predicate Sound(e: Env, s: Sys) {
    KnownReleases(e, s) && SoundDirs(e, s) && SoundAside(e, s)
  }

  /** No two releases of this run with different checksums share a directory name.
      Dir keeps 12 hexadecimal digits of a hash, so this cannot be proved of it. */
  ghost predicate NoCollisions(e: Env, rels: set<Release>) {
    forall r, q | r in rels && q in rels && e.dir(r) == e.dir(q) :: r.sums == q.sums
  }

  lemma CheckedCopyVerifies(e: Env, files: Files, r: Release, kept: Release)
    requires CheckedCopy(e, files, r) && Proper(e, kept) && kept.sums == r.sums
    ensures Verified(e, files, kept)
  {
    assert MANIFEST_NAME in kept.sums;
  }

  lemma InstalledIsFaithful(e: Env, s: Sys, name: string, rel: Release)
    requires KnownReleases(e, s) && CanInstall(e, s, name, rel)
    requires NoCollisions(e, s.checked + {rel})
    ensures Faithful(e, Installed(e, s, name, rel), e.dir(rel), s.disk.dirs[name])
  {
    var files := s.disk.dirs[name];
    if s.served.Some? && e.dir(s.served.value) == e.dir(rel) {
      CheckedCopyVerifies(e, files, rel, s.served.value);
    }
    if s.previous.Some? && e.dir(s.previous.value) == e.dir(rel) {
      CheckedCopyVerifies(e, files, rel, s.previous.value);
    }
    assert Authentic(e, files, rel);
  }

  lemma InstallKeepsFaithful(e: Env, s: Sys, name: string, rel: Release, d: string, files: Files)
    requires name in s.disk.dirs && Faithful(e, s, d, files)
    ensures Faithful(e, Installed(e, s, name, rel), d, files)
  {
    var r :| r in s.checked && e.dir(r) == d && Authentic(e, files, r);
    assert r in Installed(e, s, name, rel).checked;
  }

  lemma SoundInstall(e: Env, s: Sys, name: string, rel: Release)
    requires Sound(e, s) && CanInstall(e, s, name, rel)
    requires NoCollisions(e, s.checked + {rel})
    ensures Sound(e, Installed(e, s, name, rel))
  {
    var t := Installed(e, s, name, rel);
    InstalledIsFaithful(e, s, name, rel);
    forall d | d in t.disk.dirs && !IsStaging(d) && d !in Suspect(t)
      ensures Faithful(e, t, d, t.disk.dirs[d])
    {
      if d != e.dir(rel) {
        InstallKeepsFaithful(e, s, name, rel, d, s.disk.dirs[d]);
      }
    }
    assert SoundDirs(e, t);
  }

  lemma SoundPublish(e: Env, s: Sys, rel: Release)
    requires Sound(e, s) && CanPublish(e, s, rel)
    ensures Sound(e, Published(e, s, rel))
  {
    var t := Published(e, s, rel);
    forall d | d in t.disk.dirs && !IsStaging(d) && d !in Suspect(t)
      ensures Faithful(e, t, d, t.disk.dirs[d])
    {
      assert Faithful(e, s, d, s.disk.dirs[d]);
    }
  }

  lemma SoundAdopt(e: Env, s: Sys, rel: Release)
    requires Sound(e, s) && s.aside.None? && Adopted(e, s.disk) == Some(rel)
    ensures Sound(e, TakenOver(e, s, rel))
  {
    var t := TakenOver(e, s, rel);
    forall d | d in t.disk.dirs && !IsStaging(d) && d !in Suspect(t)
      ensures Faithful(e, t, d, t.disk.dirs[d])
    {
      assert Faithful(e, s, d, s.disk.dirs[d]);
    }
  }

  /** A crash at any point leaves a directory the next process can go on with. */
  lemma RebootedIsSound(e: Env, s: Sys)
    requires Sound(e, s)
    ensures Sound(e, Rebooted(s))
  {
    FaithfulSame(e, s, Rebooted(s));
  }

  lemma SoundEvictFile(e: Env, s: Sys, dir: string, file: string)
    requires Sound(e, s) && Evictable(e, s, dir)
    ensures Sound(e, FileEvicted(s, dir, file))
  {
    var t := FileEvicted(s, dir, file);
    forall d | d in t.disk.dirs && !IsStaging(d) && d !in Suspect(t)
      ensures Faithful(e, t, d, t.disk.dirs[d])
    {
      assert Faithful(e, s, d, s.disk.dirs[d]);
    }
  }

  lemma FaithfulSame(e: Env, s: Sys, t: Sys)
    requires t.served == s.served && t.previous == s.previous && t.checked == s.checked
    ensures forall d, files :: Faithful(e, s, d, files) ==> Faithful(e, t, d, files)
  {}

  lemma SoundSetAside(e: Env, s: Sys, dir: string)
    requires Sound(e, s) && CanSetAside(s, dir)
    ensures Sound(e, Apply(e, s, SetAside(dir)))
  {
    FaithfulSame(e, s, Apply(e, s, SetAside(dir)));
  }

  lemma SoundRestore(e: Env, s: Sys, dir: string)
    requires Sound(e, s) && CanRestore(s, dir)
    ensures Sound(e, Apply(e, s, Restore(dir)))
  {
    FaithfulSame(e, s, Apply(e, s, Restore(dir)));
  }

  lemma SoundDamage(e: Env, s: Sys, dir: string, found: Option<Files>)
    requires Sound(e, s) && Enabled(e, s, Damage(dir, found))
    ensures Sound(e, Damaged(s, dir, found))
  {
    FaithfulSame(e, s, Damaged(s, dir, found));
  }

  lemma SoundStagingOrEvictDir(e: Env, s: Sys, dirs: map<string, Files>)
    requires Sound(e, s)
    requires forall d | d in dirs && !IsStaging(d) :: d in s.disk.dirs && dirs[d] == s.disk.dirs[d]
    requires forall d | d in s.disk.dirs && !IsStaging(d) && KeptDir(e, s, d) :: d in dirs
    requires s.aside.Some? ==> Parked(s.aside.value) in s.disk.dirs ==>
               Parked(s.aside.value) in dirs && dirs[Parked(s.aside.value)] == s.disk.dirs[Parked(s.aside.value)]
    ensures Sound(e, WithDirs(s, dirs))
  {
    FaithfulSame(e, s, WithDirs(s, dirs));
  }

  /** One file-system call keeps the invariant. */
  lemma SoundStep(e: Env, s: Sys, a: Action)
    requires Sound(e, s) && Enabled(e, s, a) && NoCollisions(e, Apply(e, s, a).checked)
    ensures Sound(e, Apply(e, s, a))
  {
    match a
    case Install(name, rel) => SoundInstall(e, s, name, rel);
    case Publish(rel) => SoundPublish(e, s, rel);
    case Adopt(rel) => SoundAdopt(e, s, rel);
    case Restart => RebootedIsSound(e, s);
    case EvictFile(dir, file) => SoundEvictFile(e, s, dir, file);
    case SetAside(dir) => SoundSetAside(e, s, dir);
    case Restore(dir) => SoundRestore(e, s, dir);
    case Damage(dir, found) => SoundDamage(e, s, dir, found);
    case SetStaging(name, files) => SoundStagingOrEvictDir(e, s, s.disk.dirs[name := files]);
    case DropStaging(name) => SoundStagingOrEvictDir(e, s, s.disk.dirs - {name});
    case EvictDir(dir) => SoundStagingOrEvictDir(e, s, s.disk.dirs - {dir});
    case GiveUp(dir) => FaithfulSame(e, s, Apply(e, s, a));
    case WriteTemp(content) => FaithfulSame(e, s, Apply(e, s, a));
    case Record => FaithfulSame(e, s, Apply(e, s, a));
  }
}
