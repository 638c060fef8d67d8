/** The firmware mirror: the object that downloads, checks, publishes, records and
    prunes releases, with every file-system call written into a ghost run of the
    cache protocol. Calls that can fail may do so at any point. */
module FirmwareMirror {
  import opened Text
  import opened Releases
  import opened CacheProtocol
  import opened CacheSafety
  import opened CacheRuns
  import opened Throttle
  import opened UpstreamReleases

  datatype Verdict = Clean | Broken | IoFault

  /** The generation directories, without staging and parking ones. */
  predicate SameGenerations(a: map<string, Files>, b: map<string, Files>) {
    && (forall n | n in a && !IsStaging(n) :: n in b && b[n] == a[n])
    && (forall n | n in b && !IsStaging(n) :: n in a)
  }

  /** The directory `dest` now holds `files`; every other generation is as before. */
  predicate Replaced(before: map<string, Files>, after: map<string, Files>, dest: string, files: Files) {
    && dest in after && after[dest] == files
    && (forall n | n in before && !IsStaging(n) && n != dest :: n in after && after[n] == before[n])
    && (forall n | n in after && !IsStaging(n) && n != dest :: n in before)
  }

  /** The two renames of an exchange, one after the other. */
  lemma SwappedDirs(dirs: map<string, Files>, staging: string, dest: string)
    requires dest in dirs && staging in dirs && IsStaging(staging) && staging != Parked(dest) && staging != dest
    ensures var aside := Moved(dirs, dest, Parked(dest));
            staging in aside && Replaced(dirs, Moved(aside, staging, dest), dest, dirs[staging])
  {}

  lemma InstalledDirs(dirs: map<string, Files>, staging: string, dest: string)
    requires dest !in dirs && staging in dirs && IsStaging(staging)
    ensures Replaced(dirs, Moved(dirs, staging, dest), dest, dirs[staging])
  {}

  /** Setting a generation aside hides it; moving it back undoes that. */
  lemma SetAsideAndBack(dirs: map<string, Files>, dest: string)
    requires dest in dirs && Parked(dest) !in dirs
    ensures var aside := Moved(dirs, dest, Parked(dest));
            && SameGenerations(dirs - {dest}, aside)
            && Parked(dest) in aside && SameGenerations(dirs, Moved(aside, Parked(dest), dest))
  {}

  /** What the swap does to the generations, by how it ends. */
  predicate SwapEffect(before: map<string, Files>, after: map<string, Files>, dest: string, files: Files,
                       bad: Option<Failure>)
  {
    if bad.None? || bad.value.ChmodFailed? then Replaced(before, after, dest, files)
    else if bad.value == PublishFailed(false) then SameGenerations(before - {dest}, after)
    else SameGenerations(before, after)
  }

  /** Clearing staging directories before and after does not matter. */
  lemma SwapEffectAround(before: map<string, Files>, cleared: map<string, Files>, swapped: map<string, Files>,
                         after: map<string, Files>, dest: string, files: Files, bad: Option<Failure>)
    requires SameGenerations(before, cleared) && SameGenerations(swapped, after) && !IsStaging(dest)
    requires SwapEffect(cleared, swapped, dest, files, bad)
    ensures SwapEffect(before, after, dest, files, bad)
  {}

  /** Nothing about what is published or recorded has changed. */
  predicate SameButDirs(before: Sys, after: Sys) {
    && after.current == before.current && after.served == before.served && after.previous == before.previous
    && after.blind == before.blind
    && after.publications == before.publications && after.generations == before.generations
    && after.disk.state == before.disk.state
  }

  /** Every staged file is the body of its asset and has its listed digest. */
  ghost predicate Fetched(e: Env, files: Files, s: Sums, assets: Assets) {
    forall n | n in files :: assets.Body(n) == Some(files[n]) && n in s.of && e.digestOk(files[n], s.of[n])
  }

  /** The first `i` listed files can be obtained and have been staged. */
  ghost predicate Filled(e: Env, files: Files, i: nat, s: Sums, assets: Assets)
    requires i <= |s.names|
  {
    && Fetched(e, files, s, assets)
    && (forall j | 0 <= j < i :: s.names[j] in files && Obtainable(e, s, assets, s.names[j]))
    && forall n | n in files :: n in s.names
  }

  lemma FilledOneMore(e: Env, files: Files, i: nat, s: Sums, assets: Assets)
    requires i < |s.names| && Filled(e, files, i, s, assets) && Obtainable(e, s, assets, s.names[i])
    ensures Filled(e, files[s.names[i] := assets.Body(s.names[i]).value], i + 1, s, assets)
  {}

  lemma FilledAll(e: Env, files: Files, s: Sums, assets: Assets)
    requires Filled(e, files, |s.names|, s, assets)
    ensures Fetched(e, files, s, assets) && AllObtainable(e, s, assets)
    ensures forall n :: n in files <==> n in s.names
  {}

  /** Nothing but the directory `name` differs. */
  predicate OnlyIn(before: Disk, after: Disk, name: string) {
    after.dirs - {name} == before.dirs - {name} && after.state == before.state && after.temp == before.temp
  }

  datatype Outcome =
    | Throttled(retryAfter: nat)
    | Failed(why: Failure)
    | Unchanged(rel: Release)
    | Mirrored(rel: Release, recorded: bool, left: set<string>)

  /** Published, recorded and tidied up. */
  predicate Smooth(out: Outcome) { out.Mirrored? && out.recorded && out.left == {} }

  /** What a failed refresh may have done to the generation directories: nothing,
      except that its own destination is lost when the restore failed, or already
      holds the new files when only the chmod failed. */
  predicate FailureEffect(before: map<string, Files>, after: map<string, Files>, dest: string, why: Failure) {
    if why.ChmodFailed? then dest in after && Replaced(before, after, dest, after[dest])
    else if why == PublishFailed(false) then SameGenerations(before - {dest}, after)
    else SameGenerations(before, after)
  }

  /** What a published refresh leaves: the generation it replaced is untouched, the
      state is recorded or as before, and nothing else remains unless removal failed. */
  predicate MirroredEffect(before: Disk, after: Disk, out: Outcome, dest: string, previousDir: string)
    requires out.Mirrored?
  {
    && dest in after.dirs
    && after.state == (if out.recorded then Recorded(out.rel) else before.state)
    && (previousDir in before.dirs && previousDir != "" && previousDir != dest && !IsStaging(previousDir) ==>
          previousDir in after.dirs && after.dirs[previousDir] == before.dirs[previousDir])
    && (previousDir == dest ==>
          forall n | n in before.dirs && !IsStaging(n) && n != dest ::
            n in after.dirs && after.dirs[n] == before.dirs[n])
    && (forall n | n in after.dirs && (previousDir != dest || IsStaging(n)) ::
          n == dest || n == previousDir || n in out.left)
  }

  /** Published: a complete checked copy of what `assets` offers for the release, in its own
      directory, with the one it replaced beside it. */
  ghost predicate PublishesOffer(lib: Library, before: Disk, after: Disk, out: Outcome, latest: GhRelease,
                                 now: int, assets: Assets, previousDir: string)
  {
    && out.Mirrored? && Offers(lib, assets)
    && out.rel.tag == latest.tagName && out.rel.releaseURL == latest.htmlURL && out.rel.retrievedAt == now
    && FetchedSums(lib, assets.Body(CHECKSUMS_NAME)) == Some(Sums(out.rel.sums, out.rel.files))
    && MirroredEffect(before, after, out, lib.env.dir(out.rel), previousDir)
    && CheckedCopy(lib.env, after.dirs[lib.env.dir(out.rel)], out.rel)
    && Fetched(lib.env, after.dirs[lib.env.dir(out.rel)], Sums(out.rel.sums, out.rel.files), assets)
  }

  predicate Publishes(run: Run, rel: Release) { run.Then? && run.action == Publish(rel) }

  /** Failed: with the documented effect, and without any if nothing but the offer failed. */
  predicate FailsSafely(before: Disk, after: Disk, dest: Option<string>, why: Failure, faulty: bool) {
    && (why.Swapping() ==> dest.Some?)
    && FailureEffect(before.dirs, after.dirs, if dest.Some? then dest.value else "", why)
    && (!faulty ==> after == before)
  }

  /** No staging or parking directory is left. */
  predicate NoLeftovers(disk: Disk) { forall n | n in disk.dirs :: !IsStaging(n) }

  predicate AllDigits(s: string) { forall c | c in s :: IsDigit(c) }

  /** The random part os.MkdirTemp comes up with is one that is not taken. */
  predicate FreshSuffix(disk: Disk, suffix: string) {
    AllDigits(suffix) && STAGING_PREFIX + suffix !in disk.dirs
  }

  /** Mirrored: the latest release, whole. Its directory holds exactly the listed files,
      each a body that can be had for it, with a manifest that renders. */
  ghost predicate PublishesLatest(lib: Library, before: Disk, after: Disk, out: Outcome, up: Upstream,
                                  previousDir: string)
  {
    && out.Mirrored? && up.latest.Some? && up.latest.value.tagName != "" && lib.tagOk(up.latest.value.tagName)
    && out.rel.tag == up.latest.value.tagName && out.rel.releaseURL == up.latest.value.htmlURL
    && out.rel.retrievedAt == up.now
    && WholeRelease(lib, up.latest.value.assets, up.get, Sums(out.rel.sums, out.rel.files))
    && MirroredEffect(before, after, out, lib.env.dir(out.rel), previousDir)
    && HoldsListed(lib, after.dirs[lib.env.dir(out.rel)], up, Sums(out.rel.sums, out.rel.files))
  }

  ghost predicate HoldsListed(lib: Library, files: Files, up: Upstream, s: Sums)
    requires up.latest.Some?
  {
    && (forall n :: n in files <==> n in s.names)
    && (forall n | n in files :: FileOf(lib, up.latest.value.assets, up.get, s, n, files[n]))
    && "manifest.json" in files && lib.env.renders(files["manifest.json"], s.names)
  }

  /** Unchanged: what is published is still the latest release. */
  ghost predicate KeepsCurrent(lib: Library, before: Disk, after: Disk, current: Option<Release>, up: Upstream,
                               out: Outcome)
  {
    && out.Unchanged? && current == Some(out.rel) && SameGenerations(before.dirs, after.dirs)
    && up.latest.Some? && up.latest.value.tagName != "" && lib.tagOk(up.latest.value.tagName)
    && StillLatest(lib, before, out.rel, up.latest.value, up.compare)
  }

  /** The outcome of an attempt in which no call and no transfer fails: nothing is done
      about a release without a usable tag or one that is current already; any other is
      mirrored when it is whole, and refused for what it lacks when it is not. */
  ghost predicate SettledBy(lib: Library, before: Disk, current: Option<Release>, up: Upstream, out: Outcome) {
    if up.latest.None? || up.latest.value.tagName == "" then out == Failed(NoLatestRelease)
    else if !lib.tagOk(up.latest.value.tagName) then out == Failed(UnusableTag)
    else if current.Some? && StillLatest(lib, before, current.value, up.latest.value, up.compare)
    then out == Unchanged(current.value)
    else if exists s :: WholeRelease(lib, up.latest.value.assets, up.get, s)
    then FreshSuffix(before, up.tempSuffix) ==> Smooth(out)
    else out.Failed? && (FreshSuffix(before, up.tempSuffix) ==>
                           Refused(lib, up.latest.value.assets, up.get, out.why))
  }

  /** From what the code looks up to what upstream says. */
  lemma PublishedLatest(lib: Library, before: Disk, after: Disk, out: Outcome, up: Upstream, previousDir: string)
    requires up.latest.Some? && up.latest.value.tagName != "" && lib.tagOk(up.latest.value.tagName)
    requires PublishesOffer(lib, before, after, out, up.latest.value, up.now,
                            Reached(up.latest.value.assets, up.get), previousDir)
    ensures PublishesLatest(lib, before, after, out, up, previousDir)
  {
    var s, entries := Sums(out.rel.sums, out.rel.files), up.latest.value.assets;
    var files := after.dirs[lib.env.dir(out.rel)];
    FetchedIsListing(lib, entries, up.get, s);
    ServableIff(lib, entries, up.get, s);
    forall n | n in files
      ensures FileOf(lib, entries, up.get, s, n, files[n])
    {
      assert n in s.names;
      ObtainableIsFile(lib, entries, up.get, s, n, files[n]);
    }
  }

  datatype LoadResult = Loaded(rel: Release) | ColdCache | Rejected | LoadFault

  datatype ReadError = NotCached | Missing | ReadFault

  /** The outcome of an attempt to mirror, by what the code has looked up. */
  lemma MirroringIsSettled(lib: Library, before: Disk, after: Disk, current: Option<Release>, up: Upstream,
                           out: Outcome, previousDir: string)
    requires up.latest.Some? && up.latest.value.tagName != "" && lib.tagOk(up.latest.value.tagName)
    requires current.Some? ==> !StillLatest(lib, before, current.value, up.latest.value, up.compare)
    requires out.Mirrored? ==>
               Smooth(out) && PublishesOffer(lib, before, after, out, up.latest.value, up.now,
                                             Reached(up.latest.value.assets, up.get), previousDir)
    requires !out.Mirrored? ==>
               out.Failed? && (Lacks(lib, Reached(up.latest.value.assets, up.get), out.why)
                               || (out.why == NoStagingDir && !FreshSuffix(before, up.tempSuffix)))
    ensures SettledBy(lib, before, current, up, out)
  {
    var entries := up.latest.value.assets;
    OffersIff(lib, entries, up.get);
    if out.Failed? && Lacks(lib, Reached(entries, up.get), out.why) {
      LackIsNoOffer(lib, Reached(entries, up.get), out.why);
      LackIsRefused(lib, entries, up.get, out.why);
    }
  }

  class Mirror {
    const lib: Library
    const e: Env
    const minInterval: int

    /** No file-system call and no transfer ever fails. */
    const reliable: bool

    var disk: Disk
    var current: Option<Release>
    var lastAttempt: Option<nat>
    var trigger: bool

    ghost var run: Run

    /** Some file-system call or transfer has failed since the current method call of
        Refresh or Load began; on a reliable mirror none does. */
    ghost var faulty: bool

    /** The calls of Refresh so far, by their two clock readings. */
    ghost var calls: seq<Call>

    ghost function Now(): Sys
      reads this`run
    {
      run.Last()
    }

    ghost predicate Valid()
      reads this`disk, this`current, this`run, this`faulty
    {
      && Usable(lib) && e == lib.env && IsRun(e, run) && Now().disk == disk && Now().current == current
      && (faulty ==> !reliable)
    }

    /** The calls that were not refused, by when they recorded their attempt. */
    ghost function MadeAttempts(): seq<nat>
      reads this`calls
    {
      Attempts(minInterval, None, calls)
    }

    ghost predicate Counted()
      reads this`calls, this`lastAttempt
    {
      lastAttempt == Latest(None, MadeAttempts())
    }

    /** New: a mirror over the directory left behind by the processes of the run `before`. */
    constructor (lib: Library, minInterval: int, disk: Disk, reliable: bool, ghost before: Run)
      requires Usable(lib) && IsRun(lib.env, before) && before.Last().disk == disk
      ensures Valid() && this.lib == lib && e == lib.env && this.minInterval == minInterval
      ensures this.reliable == reliable
      ensures run == Then(before, Restart, Rebooted(before.Last())) && Now().aside.None?
      ensures this.disk == disk && current == None && lastAttempt == None && !trigger
      ensures calls == [] && Counted()
    {
      this.lib, this.e, this.minInterval, this.reliable := lib, lib.env, minInterval, reliable;
      this.disk, this.current, this.lastAttempt, this.trigger := disk, None, None, false;
      this.run := Then(before, Restart, Rebooted(before.Last()));
      this.faulty, this.calls := false, [];
    }

    /** TriggerRefresh: a one-slot, non-blocking send. */
    method TriggerRefresh() returns (queued: bool)
      modifies this`trigger
      ensures queued == !old(trigger) && trigger
    {
      queued := !trigger;
      trigger := true;
    }

    // ----- Single calls -----

    /** Whether one call to the operating system or one transfer fails. */
    method CallFails() returns (fails: bool)
      ensures fails ==> !reliable
    {
      fails := *;
      fails := fails && !reliable;
    }

    ghost method Advance(a: Action)
      requires IsRun(e, run) && Enabled(e, Now(), a)
      modifies this`run
      ensures IsRun(e, run) && run == Then(old(run), a, Apply(e, old(Now()), a))
    {
      run := Then(run, a, Apply(e, Now(), a));
    }

    /** Re-hashes the listed files of one directory. Opening or reading may fail. */
    method VerifyFiles(files: Files, rel: Release) returns (v: Verdict)
      ensures v.Clean? ==> Verified(e, files, rel)
      ensures v.Broken? ==> !Verified(e, files, rel)
      ensures v.IoFault? ==> !reliable
    {
      if rel.sums == map[] {
        return Broken;
      }
      for i := 0 to |rel.files|
        invariant forall j | 0 <= j < i :: FileOk(e, files, rel, rel.files[j])
      {
        var name := rel.files[i];
        assert name in rel.files;
        if name !in rel.sums || name !in files {
          return Broken;
        }
        var fails := CallFails();
        if fails {
          return IoFault;
        }
        if !e.digestOk(files[name], rel.sums[name]) {
          return Broken;
        }
      }
      return Clean;
    }

    /** verifyCached. */
    method VerifyCached(rel: Release) returns (v: Verdict)
      ensures v.Clean? ==> CacheVerifies(e, disk, rel)
      ensures v.Broken? ==> !CacheVerifies(e, disk, rel)
      ensures v.IoFault? ==> !reliable
    {
      var dir := e.dir(rel);
      if dir in disk.dirs {
        v := VerifyFiles(disk.dirs[dir], rel);
      } else if rel.sums != map[] && rel.files == [] {
        v := Clean;
      } else {
        v := Broken;
      }
    }

    /** One unlink below the cache directory. */
    method Unlink(name: string, file: string)
      requires Valid() && name in disk.dirs
      requires FreeStaging(Now(), name) || Evictable(e, Now(), name)
      modifies this`disk, this`run
      ensures Valid() && Now() == old(Now()).(disk := disk)
      ensures disk == old(disk).(dirs := old(disk.dirs)[name := old(disk.dirs[name]) - {file}])
      ensures Quietly(old(run), run)
    {
      if IsStaging(name) {
        Advance(SetStaging(name, disk.dirs[name] - {file}));
      } else {
        Advance(EvictFile(name, file));
      }
      disk := disk.(dirs := disk.dirs[name := disk.dirs[name] - {file}]);
    }

    /** One rmdir below the cache directory. */
    method Rmdir(name: string)
      requires Valid() && name in disk.dirs
      requires FreeStaging(Now(), name) || Evictable(e, Now(), name)
      modifies this`disk, this`run
      ensures Valid() && Now() == old(Now()).(disk := disk)
      ensures disk == old(disk).(dirs := old(disk.dirs) - {name})
      ensures Quietly(old(run), run)
    {
      if IsStaging(name) {
        Advance(DropStaging(name));
      } else {
        Advance(EvictDir(name));
      }
      disk := disk.(dirs := disk.dirs - {name});
    }

    /** os.RemoveAll below the cache directory: entry by entry, and it may stop anywhere. */
    method RemoveTree(name: string) returns (ok: bool)
      requires Valid()
      requires name in disk.dirs ==> FreeStaging(Now(), name) || Evictable(e, Now(), name)
      modifies this`disk, this`run, this`faulty
      ensures Valid() && Now() == old(Now()).(disk := disk)
      ensures disk == old(disk).(dirs := disk.dirs) && disk.dirs - {name} == old(disk.dirs) - {name}
      ensures disk.dirs.Keys <= old(disk.dirs).Keys && (ok ==> name !in disk.dirs)
      ensures Quietly(old(run), run)
      ensures !ok || old(faulty) ==> faulty
    {
      if name !in disk.dirs {
        return true;
      }
      while disk.dirs[name] != map[]
        invariant Valid() && Now() == old(Now()).(disk := disk)
        invariant name in disk.dirs
        invariant disk == old(disk).(dirs := disk.dirs) && disk.dirs - {name} == old(disk.dirs) - {name}
        invariant disk.dirs.Keys == old(disk.dirs).Keys
        invariant Quietly(old(run), run) && (old(faulty) ==> faulty)
        decreases disk.dirs[name].Keys
      {
        var fails := CallFails();
        if fails {
          faulty := true;
          return false;
        }
        var file :| file in disk.dirs[name];
        label Before:
        Unlink(name, file);
        QuietlyTransitive(old(run), old@Before(run), run);
      }
      var fails := CallFails();
      if fails {
        faulty := true;
        return false;
      }
      label Emptied:
      Rmdir(name);
      QuietlyTransitive(old(run), old@Emptied(run), run);
      return true;
    }

    /** ReadDir and removal of every staging or parking directory; failures are left behind. */
    method PruneStaging() returns (left: set<string>)
      requires Valid() && Now().aside.None?
      modifies this`disk, this`run, this`faulty
      ensures Valid() && Now() == old(Now()).(disk := disk) && disk == old(disk).(dirs := disk.dirs)
      ensures SameGenerations(old(disk.dirs), disk.dirs)
      ensures forall n | n in disk.dirs && IsStaging(n) :: n in left
      ensures Quietly(old(run), run)
      ensures left != {} || old(faulty) ==> faulty
    {
      left := disk.dirs.Keys;
      var fails := CallFails();
      if fails {
        faulty := true;
        return;
      }
      var rest := left;
      left := {};
      while rest != {}
        invariant Valid() && Now() == old(Now()).(disk := disk) && disk == old(disk).(dirs := disk.dirs)
        invariant SameGenerations(old(disk.dirs), disk.dirs)
        invariant forall n | n in disk.dirs && IsStaging(n) :: n in rest || n in left
        invariant Quietly(old(run), run) && (left != {} || old(faulty) ==> faulty)
        decreases rest
      {
        var name :| name in rest;
        rest := rest - {name};
        if IsStaging(name) {
          label Before:
          var ok := RemoveTree(name);
          QuietlyTransitive(old(run), old@Before(run), run);
          RemovalKeepsOthers(old@Before(disk.dirs), disk.dirs, name);
          if !ok {
            left := left + {name};
          }
        }
      }
    }

    /** prune: everything but the two named generations goes. */
    method Prune(keep: string, previous: string) returns (left: set<string>)
      requires Valid() && Now().aside.None? && current.Some?
      requires forall n | KeptDir(e, Now(), n) :: n == keep || (previous != "" && n == previous)
      modifies this`disk, this`run, this`faulty
      ensures Valid() && Now() == old(Now()).(disk := disk) && disk == old(disk).(dirs := disk.dirs)
      ensures forall n | n in disk.dirs ::
                n in old(disk.dirs) && (n == keep || (previous != "" && n == previous) || n in left)
      ensures forall n | n in old(disk.dirs) && (n == keep || (previous != "" && n == previous)) ::
                n in disk.dirs && disk.dirs[n] == old(disk.dirs[n])
      ensures Quietly(old(run), run)
      ensures left != {} || old(faulty) ==> faulty
    {
      left := disk.dirs.Keys;
      var fails := CallFails();
      if fails {
        faulty := true;
        return;
      }
      var rest := left;
      left := {};
      while rest != {}
        invariant Valid() && Now() == old(Now()).(disk := disk) && disk == old(disk).(dirs := disk.dirs)
        invariant forall n | n in disk.dirs ::
                    n in old(disk.dirs) && (n == keep || (previous != "" && n == previous) || n in rest || n in left)
        invariant forall n | n in old(disk.dirs) && (n == keep || (previous != "" && n == previous)) ::
                    n in disk.dirs && disk.dirs[n] == old(disk.dirs[n])
        invariant Quietly(old(run), run) && (left != {} || old(faulty) ==> faulty)
        decreases rest
      {
        var name :| name in rest;
        rest := rest - {name};
        if name == keep || (previous != "" && name == previous) {
          continue;
        }
        assert !KeptDir(e, old(Now()), name);
        assert name in disk.dirs ==> FreeStaging(Now(), name) || Evictable(e, Now(), name);
        label Before:
        var ok := RemoveTree(name);
        QuietlyTransitive(old(run), old@Before(run), run);
        RemovalKeepsOthers(old@Before(disk.dirs), disk.dirs, name);
        if !ok {
          left := left + {name};
        }
      }
    }

    /** writeState: a temporary file, then a rename; any call may fail. */
    method WriteState(rel: Release) returns (ok: bool)
      requires Valid() && current == Some(rel)
      modifies this`disk, this`run, this`faulty
      ensures Valid() && Now() == old(Now()).(disk := disk) && disk.dirs == old(disk.dirs)
      ensures disk.state == if ok then Recorded(rel) else old(disk.state)
      ensures Quietly(old(run), run)
      ensures !ok || old(faulty) ==> faulty
    {
      var fails := CallFails();
      if fails {
        faulty := true;
        return false;
      }
      Advance(WriteTemp(BadState));
      disk := disk.(temp := BadState);
      assert Quietly(old(run), run);
      fails := CallFails();
      if fails {
        faulty := true;
        return false;
      }
      Advance(WriteTemp(Recorded(rel)));
      disk := disk.(temp := Recorded(rel));
      assert Quietly(old(run), run);
      fails := CallFails();
      if fails {
        faulty := true;
        return false;
      }
      Advance(Record);
      disk := disk.(state := disk.temp, temp := NoState);
      return true;
    }

    /** os.MkdirTemp: `suffix` is the random part of the name. */
    method MakeStaging(suffix: string) returns (name: Option<string>)
      requires Valid() && Now().aside.None?
      modifies this`disk, this`run, this`faulty
      ensures Valid() && Now() == old(Now()).(disk := disk)
      ensures name.None? ==> disk == old(disk) && (faulty || !FreshSuffix(disk, suffix))
      ensures name.Some? ==>
                && IsStaging(name.value) && name.value !in old(disk.dirs)
                && (forall d: string :: name.value != Parked(d))
                && disk == old(disk).(dirs := old(disk.dirs)[name.value := map[]])
      ensures Quietly(old(run), run)
      ensures old(faulty) ==> faulty
    {
      var dir := STAGING_PREFIX + suffix;
      if !AllDigits(suffix) || dir in disk.dirs {
        return None;
      }
      var fails := CallFails();
      if fails {
        faulty := true;
        return None;
      }
      forall d: string ensures dir != Parked(d) {
        DigitsAreNotParked(suffix, d);
      }
      Advance(SetStaging(dir, map[]));
      disk := disk.(dirs := disk.dirs[dir := map[]]);
      return Some(dir);
    }

    /** A write to one file of a staging directory. */
    method WriteStaged(staging: string, name: string, content: Bytes)
      requires Valid() && staging in disk.dirs && FreeStaging(Now(), staging)
      modifies this`disk, this`run
      ensures Valid() && Now() == old(Now()).(disk := disk)
      ensures staging in disk.dirs && OnlyIn(old(disk), disk, staging)
      ensures disk.dirs[staging] == old(disk.dirs[staging])[name := content]
      ensures Quietly(old(run), run)
    {
      Advance(SetStaging(staging, disk.dirs[staging][name := content]));
      disk := disk.(dirs := disk.dirs[staging := disk.dirs[staging][name := content]]);
    }

    /** The write side of a download: the file is created, then filled up to `n`
        bytes; it may stop in between. */
    method StreamTo(staging: string, name: string, body: Bytes, n: nat) returns (ok: bool)
      requires Valid() && Now().aside.None? && staging in disk.dirs && IsStaging(staging) && n <= |body|
      modifies this`disk, this`run, this`faulty
      ensures Valid() && Now() == old(Now()).(disk := disk)
      ensures staging in disk.dirs && OnlyIn(old(disk), disk, staging)
      ensures ok ==> disk.dirs[staging] == old(disk.dirs[staging])[name := body[..n]]
      ensures Quietly(old(run), run)
      ensures !ok || old(faulty) ==> faulty
    {
      var fails := CallFails();
      if fails {
        faulty := true;
        return false;
      }
      WriteStaged(staging, name, "");
      label Created:
      var stop: nat := n;
      ok := true;
      fails := CallFails();
      if fails {
        faulty := true;
        stop :| 0 <= stop <= n;
        ok := false;
      }
      WriteStaged(staging, name, body[..stop]);
      QuietlyTransitive(old(run), old@Created(run), run);
      assert old(disk.dirs[staging])[name := ""][name := body[..stop]] == old(disk.dirs[staging])[name := body[..stop]];
    }

    /** download: streams `body` into a staged file and checks its digest. On failure
        whatever was written stays in the staging directory. */
    method Download(staging: string, name: string, body: Option<Bytes>, want: string) returns (ok: bool)
      requires Valid() && Now().aside.None? && staging in disk.dirs && IsStaging(staging)
      modifies this`disk, this`run, this`faulty
      ensures Valid() && Now() == old(Now()).(disk := disk)
      ensures staging in disk.dirs && OnlyIn(old(disk), disk, staging)
      ensures ok ==> AcceptedBody(e, body, want)
      ensures !ok ==> faulty || !AcceptedBody(e, body, want)
      ensures old(faulty) ==> faulty
      ensures ok ==> disk.dirs[staging] == old(disk.dirs[staging])[name := body.value]
      ensures Quietly(old(run), run)
    {
      if body.None? {
        return false;
      }
      var n: nat := if |body.value| <= MAX_ASSET_BYTES then |body.value| else MAX_ASSET_BYTES + 1;
      ok := StreamTo(staging, name, body.value, n);
      if !ok || n > MAX_ASSET_BYTES {
        return false;
      }
      assert body.value[..n] == body.value;
      var fails := CallFails();
      if fails {
        faulty := true;
        return false;
      }
      ok := e.digestOk(body.value, want);
    }

    /** os.Rename of a directory, standing for protocol action `a`. */
    method RenameDir(from: string, to: string, ghost a: Action) returns (ok: bool)
      requires Valid() && from in disk.dirs && to !in disk.dirs && Enabled(e, Now(), a)
      requires Apply(e, Now(), a).disk == disk.(dirs := Moved(disk.dirs, from, to))
      requires Apply(e, Now(), a).current == current
      modifies this`disk, this`run, this`faulty
      ensures Valid()
      ensures ok ==> run == Then(old(run), a, Apply(e, old(Now()), a))
      ensures !ok ==> run == old(run) && disk == old(disk)
      ensures !ok || old(faulty) ==> faulty
    {
      var fails := CallFails();
      if fails {
        faulty := true;
        return false;
      }
      Advance(a);
      disk := disk.(dirs := Moved(disk.dirs, from, to));
      return true;
    }

    method RenameAside(dest: string) returns (ok: bool)
      requires Valid() && CanSetAside(Now(), dest)
      modifies this`disk, this`run, this`faulty
      ensures Valid() && SameButDirs(old(Now()), Now()) && Now().checked == old(Now()).checked
      ensures ok ==> disk.dirs == Moved(old(disk.dirs), dest, Parked(dest)) && Now().aside == Some(dest)
      ensures !ok ==> disk == old(disk) && Now().aside.None?
      ensures Preparing(old(run), run, Some(dest))
      ensures !ok || old(faulty) ==> faulty
    {
      ok := RenameDir(dest, Parked(dest), SetAside(dest));
    }

    method RenameIn(staging: string, rel: Release, dest: string) returns (ok: bool)
      requires Valid() && CanInstall(e, Now(), staging, rel) && dest == e.dir(rel)
      modifies this`disk, this`run, this`faulty
      ensures Valid() && SameButDirs(old(Now()), Now())
      ensures ok ==> disk.dirs == Moved(old(disk.dirs), staging, dest) && Now().aside.None? && rel in Now().checked
      ensures !ok ==> disk == old(disk) && run == old(run)
      ensures Preparing(old(run), run, Some(dest))
      ensures !ok || old(faulty) ==> faulty
    {
      ok := RenameDir(staging, dest, Install(staging, rel));
    }

    /** The restore after a failed publish rename; when it fails too, the generation is lost. */
    method RenameBack(dest: string) returns (ok: bool)
      requires Valid() && CanRestore(Now(), dest)
      modifies this`disk, this`run, this`faulty
      ensures Valid() && SameButDirs(old(Now()), Now()) && Now().aside.None?
      ensures ok ==> disk.dirs == Moved(old(disk.dirs), Parked(dest), dest)
      ensures !ok ==> disk == old(disk)
      ensures Preparing(old(run), run, Some(dest))
      ensures !ok || old(faulty) ==> faulty
    {
      ok := RenameDir(Parked(dest), dest, Restore(dest));
      if !ok {
        Advance(GiveUp(dest));
      }
    }

    /** The two renames that bring a staged generation into place, and the restore. */
    method Exchange(staging: string, rel: Release, dest: string) returns (bad: Option<Failure>, hadOld: bool)
      requires Valid() && Now().aside.None? && dest == e.dir(rel)
      requires staging in disk.dirs && IsStaging(staging) && staging != Parked(dest) && Parked(dest) !in disk.dirs
      requires CheckedCopy(e, disk.dirs[staging], rel)
      modifies this`disk, this`run, this`faulty
      ensures Valid() && Now().aside.None? && SameButDirs(old(Now()), Now())
      ensures Preparing(old(run), run, Some(dest))
      ensures bad.None? ==> rel in Now().checked
      ensures bad.Some? ==> bad.value == SetAsideFailed || bad.value.PublishFailed?
      ensures SwapEffect(old(disk.dirs), disk.dirs, dest, old(disk.dirs[staging]), bad)
      ensures bad.Some? || old(faulty) ==> faulty
    {
      hadOld := dest in disk.dirs;
      if hadOld {
        var moved := RenameAside(dest);
        if !moved {
          return Some(SetAsideFailed), hadOld;
        }
      }
      label Aside:
      var ok := RenameIn(staging, rel, dest);
      PreparingTransitive(old(run), old@Aside(run), run, Some(dest));
      if ok {
        if hadOld {
          SwappedDirs(old(disk.dirs), staging, dest);
        } else {
          InstalledDirs(old(disk.dirs), staging, dest);
        }
        return None, hadOld;
      }
      if !hadOld {
        return Some(PublishFailed(true)), hadOld;
      }
      SetAsideAndBack(old(disk.dirs), dest);
      var restored := RenameBack(dest);
      PreparingTransitive(old(run), old@Aside(run), run, Some(dest));
      return Some(PublishFailed(restored)), hadOld;
    }

    /** The swap at the heart of Refresh: clear the parking slot, exchange, discard. */
    method SwapIn(staging: string, rel: Release, dest: string) returns (bad: Option<Failure>)
      requires Valid() && Now().aside.None? && dest == e.dir(rel)
      requires staging in disk.dirs && IsStaging(staging) && staging != Parked(dest)
      requires CheckedCopy(e, disk.dirs[staging], rel)
      modifies this`disk, this`run, this`faulty
      ensures Valid() && Now().aside.None? && SameButDirs(old(Now()), Now())
      ensures Preparing(old(run), run, Some(dest))
      ensures bad.None? || bad.value.ChmodFailed? ==> rel in Now().checked
      ensures bad.Some? ==> bad.value.Swapping()
      ensures SwapEffect(old(disk.dirs), disk.dirs, dest, old(disk.dirs[staging]), bad)
      ensures bad.Some? || old(faulty) ==> faulty
    {
      var parked := Parked(dest);
      var cleared := RemoveTree(parked);
      ParkingCleared(old(disk.dirs), disk.dirs, dest, staging);
      QuietIsPreparing(old(run), run, Some(dest));
      if !cleared {
        return Some(ParkingBlocked);
      }
      var fails := CallFails();
      if fails {
        faulty := true;
        return Some(StatFailed);
      }
      label Cleared:
      var hadOld;
      bad, hadOld := Exchange(staging, rel, dest);
      PreparingTransitive(old(run), old@Cleared(run), run, Some(dest));
      label Exchanged:
      if bad.None? {
        bad := FinishSwap(dest, hadOld);
        PreparingTransitive(old(run), old@Exchanged(run), run, Some(dest));
      }
      SwapEffectAround(old(disk.dirs), old@Cleared(disk.dirs), old@Exchanged(disk.dirs), disk.dirs, dest,
                       old(disk.dirs[staging]), bad);
    }

    /** Discards the parked copy, if there is one, and opens the new directory to others. */
    method FinishSwap(dest: string, hadOld: bool) returns (bad: Option<Failure>)
      requires Valid() && Now().aside.None?
      modifies this`disk, this`run, this`faulty
      ensures Valid() && Now() == old(Now()).(disk := disk) && disk.state == old(disk.state)
      ensures SameGenerations(old(disk.dirs), disk.dirs)
      ensures Preparing(old(run), run, Some(dest))
      ensures bad.None? || bad == Some(ChmodFailed)
      ensures bad.Some? || old(faulty) ==> faulty
    {
      if hadOld {
        var discarded := RemoveTree(Parked(dest));
        RemovalKeepsOthers(old(disk.dirs), disk.dirs, Parked(dest));
        QuietIsPreparing(old(run), run, Some(dest));
      }
      var fails := CallFails();
      if fails {
        faulty := true;
        return Some(ChmodFailed);
      }
      return None;
    }

    /** Publish first, record afterwards, then drop what is no longer referenced. An
        in-place replacement evicts nothing. */
    method PublishAndPrune(rel: Release, dest: string, previousDir: string)
      returns (recorded: bool, left: set<string>, ghost published: Run)
      requires Valid() && Now().aside.None? && dest == e.dir(rel)
      requires rel in Now().checked && InPlace(e, disk, rel)
      requires if current.Some? then previousDir == e.dir(current.value) && previousDir != "" else previousDir == ""
      modifies this`disk, this`current, this`run, this`faulty
      ensures Valid() && Now().aside.None? && current == Some(rel)
      ensures disk.state == if recorded then Recorded(rel) else old(disk.state)
      ensures published == Then(old(run), Publish(rel), Published(e, old(Now()), rel)) && Quietly(published, run)
      ensures Now() == Published(e, old(Now()), rel).(disk := disk)
      ensures previousDir == dest ==> SameGenerations(old(disk.dirs), disk.dirs)
      ensures forall n | n in old(disk.dirs) && !IsStaging(n) && (n == dest || n == previousDir) && n != "" ::
                n in disk.dirs && disk.dirs[n] == old(disk.dirs[n])
      ensures forall n | n in disk.dirs && previousDir != dest ::
                n in old(disk.dirs) && (n in {dest, previousDir} || n in left)
      ensures forall n | n in disk.dirs && IsStaging(n) && previousDir == dest :: n in left
      ensures !recorded || left != {} || old(faulty) ==> faulty
    {
      Advance(Publish(rel));
      current := Some(rel);
      published := run;
      recorded := WriteState(rel);
      label Recording:
      if previousDir == dest {
        left := PruneStaging();
      } else {
        left := Prune(dest, previousDir);
      }
      QuietlyTransitive(published, old@Recording(run), run);
    }

    /** One round of the download loop. */
    method FillOne(staging: string, name: string, assets: Assets, s: Sums) returns (bad: Option<Failure>)
      requires Valid() && Now().aside.None? && IsStaging(staging) && staging in disk.dirs && name in s.of
      modifies this`disk, this`run, this`faulty
      ensures Valid() && Now() == old(Now()).(disk := disk)
      ensures staging in disk.dirs && OnlyIn(old(disk), disk, staging)
      ensures bad.None? ==> Obtainable(e, s, assets, name)
      ensures bad.Some? ==>
                || (bad.value == NoSuchAsset(name) && name !in assets.urls)
                || (bad.value == DownloadFailed(name) && name in assets.urls
                    && (faulty || !Obtainable(e, s, assets, name)))
      ensures old(faulty) ==> faulty
      ensures bad.None? ==> disk.dirs[staging] == old(disk.dirs[staging])[name := assets.Body(name).value]
      ensures Quietly(old(run), run)
    {
      if name !in assets.urls {
        return Some(NoSuchAsset(name));
      }
      var ok := Download(staging, name, assets.get(assets.urls[name]), s.of[name]);
      return if ok then None else Some(DownloadFailed(name));
    }

    /** Downloads every listed file into the staging directory. */
    method FillStaging(staging: string, assets: Assets, s: Sums) returns (bad: Option<Failure>)
      requires Valid() && Now().aside.None? && IsStaging(staging) && staging in disk.dirs && disk.dirs[staging] == map[]
      requires forall n | n in s.names :: n in s.of
      modifies this`disk, this`run, this`faulty
      ensures Valid() && Now() == old(Now()).(disk := disk)
      ensures staging in disk.dirs && OnlyIn(old(disk), disk, staging)
      ensures bad.None? ==> Filled(e, disk.dirs[staging], |s.names|, s, assets)
      ensures bad.Some? ==> faulty || Unservable(e, s, assets, bad.value)
      ensures bad.Some? ==> bad.value.NoSuchAsset? || bad.value.DownloadFailed?
      ensures old(faulty) ==> faulty
      ensures Quietly(old(run), run)
    {
      for i := 0 to |s.names|
        invariant Valid() && Now() == old(Now()).(disk := disk)
        invariant staging in disk.dirs && OnlyIn(old(disk), disk, staging)
        invariant Filled(e, disk.dirs[staging], i, s, assets)
        invariant Quietly(old(run), run) && (old(faulty) ==> faulty)
      {
        label Before:
        bad := FillOne(staging, s.names[i], assets, s);
        QuietlyTransitive(old(run), old@Before(run), run);
        if bad.Some? {
          assert s.names[i] in s.names;
          return;
        }
        FilledOneMore(e, old@Before(disk.dirs[staging]), i, s, assets);
      }
      bad := None;
    }

    /** Renders the staged manifest once, before anything is published. */
    method CheckManifest(raw: Bytes, rel: Release) returns (bad: Option<Failure>)
      requires Valid()
      modifies this`faulty
      ensures Valid()
      ensures bad.None? ==> e.renders(raw, rel.files)
      ensures bad.Some? ==>
                bad.value.ManifestUnreadable? || (bad.value.ManifestUnrenderable? && !e.renders(raw, rel.files))
      ensures bad == Some(ManifestUnreadable) || old(faulty) ==> faulty
    {
      var fails := CallFails();
      if fails {
        faulty := true;
        return Some(ManifestUnreadable);
      }
      return if e.renders(raw, rel.files) then None else Some(ManifestUnrenderable);
    }

    /** The swap, then the published pointer, the state file and the eviction. */
    method SwapAndPublish(rel: Release, dest: string, staging: string, previousDir: string)
      returns (out: Outcome, ghost published: Option<Run>)
      requires Valid() && Now().aside.None? && dest == e.dir(rel)
      requires staging in disk.dirs && IsStaging(staging) && staging != Parked(dest)
      requires CheckedCopy(e, disk.dirs[staging], rel)
      requires if current.Some? then previousDir == e.dir(current.value) && previousDir != "" else previousDir == ""
      modifies this`disk, this`current, this`run, this`faulty
      ensures Valid() && Now().aside.None?
      ensures Refreshed(old(run), run, Some(dest), published) && (published.Some? <==> out.Mirrored?)
      ensures published.Some? ==> Publishes(published.value, rel)
      ensures out.Failed? || (out.Mirrored? && out.rel == rel)
      ensures out.Failed? ==> SameButDirs(old(Now()), Now()) && FailureEffect(old(disk.dirs), disk.dirs, dest, out.why)
      ensures out.Mirrored? ==> MirroredEffect(old(disk), disk, out, dest, previousDir) && current == Some(rel)
      ensures out.Mirrored? ==> disk.dirs[dest] == old(disk.dirs[staging])
      ensures !Smooth(out) || old(faulty) ==> faulty
    {
      ghost var files := disk.dirs[staging];
      published := None;
      var bad := SwapIn(staging, rel, dest);
      if bad.Some? {
        return Failed(bad.value), None;
      }
      CheckedCopyVerifies(e, files, rel, rel);
      assert e.dir(rel) != "";
      label Swapped:
      ghost var p;
      var recorded, left;
      recorded, left, p := PublishAndPrune(rel, dest, previousDir);
      published := Some(p);
      out := Mirrored(rel, recorded, left);
      EffectOfPublishing(old(disk), old@Swapped(disk), disk, out, dest, previousDir, files);
    }

    /** Downloads and checks everything; nothing outside the staging directory changes. */
    method Stage(rel: Release, s: Sums, assets: Assets, staging: string) returns (bad: Option<Failure>, dest: string)
      requires Valid() && Now().aside.None? && Proper(e, rel) && rel.files == s.names && rel.sums == s.of
      requires staging in disk.dirs && disk.dirs[staging] == map[] && IsStaging(staging)
      modifies this`disk, this`run, this`faulty
      ensures Valid() && Now() == old(Now()).(disk := disk) && dest == e.dir(rel)
      ensures staging in disk.dirs && OnlyIn(old(disk), disk, staging)
      ensures bad.None? ==> CheckedCopy(e, disk.dirs[staging], rel) && Fetched(e, disk.dirs[staging], s, assets)
      ensures bad.Some? ==> !bad.value.Swapping()
      ensures Quietly(old(run), run)
      ensures bad.None? ==> Servable(e, s, assets)
      ensures bad.Some? ==> faulty || Unservable(e, s, assets, bad.value)
      ensures old(faulty) ==> faulty
    {
      dest := e.dir(rel);
      bad := FillStaging(staging, assets, s);
      if bad.Some? {
        return;
      }
      FilledAll(e, disk.dirs[staging], s, assets);
      assert disk.dirs[staging].Keys == rel.sums.Keys;
      bad := CheckManifest(disk.dirs[staging][MANIFEST_NAME], rel);
    }

    /** Everything between the staging directory and the published pointer. */
    method StageAndPublish(rel: Release, s: Sums, assets: Assets, staging: string, previousDir: string)
      returns (out: Outcome, ghost published: Option<Run>)
      requires Valid() && Now().aside.None? && Proper(e, rel) && rel.files == s.names && rel.sums == s.of
      requires staging in disk.dirs && disk.dirs[staging] == map[] && IsStaging(staging)
      requires forall d: string :: staging != Parked(d)
      requires if current.Some? then previousDir == e.dir(current.value) && previousDir != "" else previousDir == ""
      modifies this`disk, this`current, this`run, this`faulty
      ensures Valid() && Now().aside.None?
      ensures Refreshed(old(run), run, Some(e.dir(rel)), published) && (published.Some? <==> out.Mirrored?)
      ensures published.Some? ==> Publishes(published.value, rel)
      ensures out.Failed? || (out.Mirrored? && out.rel == rel)
      ensures out.Failed? ==>
                SameButDirs(old(Now()), Now()) && FailureEffect(old(disk.dirs), disk.dirs, e.dir(rel), out.why)
      ensures out.Mirrored? ==> MirroredEffect(old(disk), disk, out, e.dir(rel), previousDir) && current == Some(rel)
      ensures out.Mirrored? ==>
                CheckedCopy(e, disk.dirs[e.dir(rel)], rel) && Fetched(e, disk.dirs[e.dir(rel)], s, assets)
      ensures out.Mirrored? ==> Servable(e, s, assets)
      ensures out.Mirrored? && !Smooth(out) ==> faulty
      ensures out.Failed? ==> faulty || Unservable(e, s, assets, out.why)
      ensures old(faulty) ==> faulty
      ensures out.Failed? && !faulty ==> OnlyIn(old(disk), disk, staging)
    {
      var bad, dest := Stage(rel, s, assets, staging);
      StagingOnly(old(disk), disk, staging);
      QuietIsPreparing(old(run), run, Some(dest));
      if bad.Some? {
        return Failed(bad.value), None;
      }
      label Staged:
      out, published := SwapAndPublish(rel, dest, staging, previousDir);
      RefreshedAfterPreparing(old(run), old@Staged(run), run, Some(dest), published);
      EffectAfterStaging(old(disk), old@Staged(disk), disk, out, dest, previousDir);
    }

    /** fetchChecksums: a missing, over-long or malformed answer is an error. */
    method FetchChecksums(answer: Option<Bytes>) returns (s: Option<Sums>)
      ensures s == FetchedSums(lib, answer)
    {
      if answer.None? || |answer.value| > MAX_CHECKSUMS_BYTES {
        return None;
      }
      s := lib.parse(answer.value);
    }

    /** checksumsUnchanged; None is an error. */
    method ChecksumsUnchanged(rel: Release, assets: Assets) returns (same: Option<bool>)
      ensures same.Some? <==> CHECKSUMS_NAME in assets.urls && FetchedSums(lib, assets.Body(CHECKSUMS_NAME)).Some?
      ensures same.Some? ==> (same.value <==> SameChecksums(FetchedSums(lib, assets.Body(CHECKSUMS_NAME)).value, rel))
    {
      if CHECKSUMS_NAME !in assets.urls {
        return None;
      }
      var s := FetchChecksums(assets.get(assets.urls[CHECKSUMS_NAME]));
      if s.None? {
        return None;
      }
      if |s.value.names| != |rel.files| {
        return Some(false);
      }
      for i := 0 to |s.value.names|
        invariant forall j | 0 <= j < i :: SameDigest(s.value, rel, s.value.names[j])
      {
        if !SameDigest(s.value, rel, s.value.names[i]) {
          return Some(false);
        }
      }
      return Some(true);
    }

    /** The short-circuit: the tag is the cached one, the cache verifies and upstream
        still lists the same checksums. */
    method IsUpToDate(tag: string, assets: Assets) returns (upToDate: bool)
      requires Valid()
      modifies this`faulty
      ensures Valid()
      ensures upToDate ==>
                current.Some? && current.value.tag == tag && UpToDate(lib, disk, current.value, assets)
      ensures !upToDate ==>
                faulty || !(current.Some? && current.value.tag == tag && UpToDate(lib, disk, current.value, assets))
      ensures old(faulty) ==> faulty
    {
      if current.None? || current.value.tag != tag {
        return false;
      }
      var verdict := VerifyCached(current.value);
      if !verdict.Clean? {
        faulty := faulty || verdict.IoFault?;
        return false;
      }
      var same := ChecksumsUnchanged(current.value, assets);
      return same == Some(true);
    }

    /** A staging directory around the whole of StageAndPublish, removed on every path. */
    method MirrorRelease(rel: Release, s: Sums, assets: Assets, suffix: string, previousDir: string)
      returns (out: Outcome, ghost published: Option<Run>)
      requires Valid() && Now().aside.None? && Proper(e, rel) && rel.files == s.names && rel.sums == s.of
      requires if current.Some? then previousDir == e.dir(current.value) && previousDir != "" else previousDir == ""
      modifies this`disk, this`current, this`run, this`faulty
      ensures Valid() && Now().aside.None?
      ensures Refreshed(old(run), run, Some(e.dir(rel)), published) && (published.Some? <==> out.Mirrored?)
      ensures published.Some? ==> Publishes(published.value, rel)
      ensures out.Failed? || (out.Mirrored? && out.rel == rel)
      ensures out.Failed? ==>
                SameButDirs(old(Now()), Now()) && FailureEffect(old(disk.dirs), disk.dirs, e.dir(rel), out.why)
      ensures out.Mirrored? ==> MirroredEffect(old(disk), disk, out, e.dir(rel), previousDir) && current == Some(rel)
      ensures out.Mirrored? ==>
                CheckedCopy(e, disk.dirs[e.dir(rel)], rel) && Fetched(e, disk.dirs[e.dir(rel)], s, assets)
      ensures out.Mirrored? ==> Servable(e, s, assets)
      ensures out.Mirrored? && !Smooth(out) ==> faulty
      ensures out.Failed? ==>
                || faulty || Unservable(e, s, assets, out.why)
                || (out.why == NoStagingDir && !FreshSuffix(old(disk), suffix))
      ensures old(faulty) ==> faulty
      ensures out.Failed? && !faulty ==> disk == old(disk)
    {
      var staging := MakeStaging(suffix);
      QuietIsPreparing(old(run), run, Some(e.dir(rel)));
      if staging.None? {
        return Failed(NoStagingDir), None;
      }
      label Made:
      out, published := StageAndPublish(rel, s, assets, staging.value, previousDir);
      label Done:
      var removed := RemoveTree(staging.value);
      if !faulty && out.Failed? {
        NoTrace(old(disk), old@Made(disk), old@Done(disk), disk, staging.value);
      }
      StagingOnly(old@Done(disk), disk, staging.value);
      RefreshedThenQuiet(old@Made(run), old@Done(run), run, Some(e.dir(rel)), published);
      RefreshedAfterPreparing(old(run), old@Made(run), run, Some(e.dir(rel)), published);
      EffectAroundStaging(old(disk), old@Made(disk), old@Done(disk), disk, out, e.dir(rel), previousDir);
    }

    ghost function CurrentDir(): string
      reads this`current
    {
      if current.Some? then e.dir(current.value) else ""
    }

    /** The second half of Refresh: fetches the checksum listing and mirrors what it lists. */
    method MirrorLatest(latest: GhRelease, assets: Assets, suffix: string, now: int, previousDir: string)
      returns (out: Outcome, ghost dest: Option<string>, ghost published: Option<Run>)
      requires Valid() && Now().aside.None? && lib.tagOk(latest.tagName)
      requires if current.Some? then previousDir == e.dir(current.value) && previousDir != "" else previousDir == ""
      modifies this`disk, this`current, this`run, this`faulty
      ensures Valid() && Now().aside.None?
      ensures Refreshed(old(run), run, dest, published) && (published.Some? <==> out.Mirrored?)
      ensures published.Some? ==> Publishes(published.value, out.rel) && dest == Some(e.dir(out.rel))
      ensures out.Failed? || out.Mirrored?
      ensures out.Failed? ==>
                SameButDirs(old(Now()), Now()) && FailsSafely(old(disk), disk, dest, out.why, faulty)
      ensures out.Mirrored? ==>
                current == Some(out.rel) && PublishesOffer(lib, old(disk), disk, out, latest, now, assets, previousDir)
      ensures out.Mirrored? && !Smooth(out) ==> faulty
      ensures out.Failed? ==>
                || faulty || Lacks(lib, assets, out.why)
                || (out.why == NoStagingDir && !FreshSuffix(old(disk), suffix))
      ensures old(faulty) ==> faulty
    {
      dest, published := None, None;
      if CHECKSUMS_NAME !in assets.urls {
        out := Failed(NoChecksumsAsset);
        return;
      }
      var s := FetchChecksums(assets.get(assets.urls[CHECKSUMS_NAME]));
      if s.None? {
        out := Failed(BadChecksums);
        return;
      }
      if MANIFEST_NAME !in s.value.names {
        out := Failed(NoManifestListed);
        return;
      }
      var rel := Release(latest.tagName, s.value.names, now, s.value.of, latest.htmlURL);
      assert Proper(e, rel) by {
        assert lib.parse(assets.Body(CHECKSUMS_NAME).value) == Some(Sums(rel.sums, rel.files));
      }
      dest := Some(e.dir(rel));
      out, published := MirrorRelease(rel, s.value, assets, suffix, previousDir);
    }

    ghost method CountCall(checkedAt: nat, startedAt: nat)
      modifies this`calls
      ensures calls == old(calls) + [Call(checkedAt, startedAt)]
      ensures old(Counted()) ==>
                MadeAttempts() == old(MadeAttempts())
                                  + if Remaining(minInterval, lastAttempt, checkedAt) > 0 then [] else [startedAt]
    {
      OneMoreAttempt(minInterval, None, calls, Call(checkedAt, startedAt));
      calls := calls + [Call(checkedAt, startedAt)];
    }

    /** An attempt that has passed the floor. */
    method Attempt(up: Upstream) returns (out: Outcome, ghost dest: Option<string>, ghost published: Option<Run>)
      requires Valid() && Now().aside.None?
      modifies this`disk, this`current, this`run, this`faulty
      ensures Valid() && Now().aside.None? && !out.Throttled?
      ensures Refreshed(old(run), run, dest, published) && (published.Some? <==> out.Mirrored?)
      ensures published.Some? ==> Publishes(published.value, out.rel) && dest == Some(e.dir(out.rel))
      ensures out.Failed? ==>
                SameButDirs(old(Now()), Now()) && FailsSafely(old(disk), disk, dest, out.why, faulty)
      ensures out.Unchanged? ==>
                current == old(current) && KeepsCurrent(lib, old(disk), disk, old(current), up, out)
      ensures out.Mirrored? ==>
                current == Some(out.rel) && PublishesLatest(lib, old(disk), disk, out, up, old(CurrentDir()))
      ensures out.Unchanged? && !faulty ==> NoLeftovers(disk)
      ensures !faulty && !old(faulty) ==> SettledBy(lib, old(disk), old(current), up, out)
    {
      dest, published := None, None;
      if up.latest.None? || up.latest.value.tagName == "" {
        out := Failed(NoLatestRelease);
        return;
      }
      var latest := up.latest.value;
      if !lib.tagOk(latest.tagName) {
        out := Failed(UnusableTag);
        return;
      }
      var urls := CollectUrls(latest.assets);
      var previousDir := if current.Some? then e.dir(current.value) else "";
      var upToDate := IsUpToDate(latest.tagName, Assets(urls, up.compare));
      if current.Some? {
        UpToDateIff(lib, disk, current.value, latest, up.compare);
      }
      if upToDate {
        var left := PruneStaging();
        QuietIsPreparing(old(run), run, None);
        out := Unchanged(current.value);
        return;
      }
      out, dest, published := MirrorLatest(latest, Assets(urls, up.get), up.tempSuffix, up.now, previousDir);
      if out.Mirrored? {
        PublishedLatest(lib, old(disk), disk, out, up, previousDir);
      }
      if !faulty {
        MirroringIsSettled(lib, old(disk), disk, old(current), up, out, previousDir);
      }
    }

    /** Refresh. `checkedAt` and `startedAt` are its two clock readings. Its outcome is
        settled by what upstream offers unless some call or transfer fails. */
    method Refresh(checkedAt: nat, startedAt: nat, up: Upstream)
      returns (out: Outcome, ghost dest: Option<string>, ghost published: Option<Run>)
      requires Valid() && Now().aside.None?
      modifies this`disk, this`current, this`run, this`lastAttempt, this`faulty, this`calls
      ensures Valid() && Now().aside.None?
      ensures out.Throttled? <==>
                minInterval > 0 && old(lastAttempt).Some? && checkedAt < old(lastAttempt).value + minInterval
      ensures out.Throttled? ==>
                && checkedAt + out.retryAfter == old(lastAttempt).value + minInterval
                && run == old(run) && lastAttempt == old(lastAttempt) && disk == old(disk) && current == old(current)
      ensures !out.Throttled? ==> lastAttempt == Some(startedAt)
      ensures calls == old(calls) + [Call(checkedAt, startedAt)]
      ensures old(Counted()) ==>
                Counted() && MadeAttempts() == old(MadeAttempts()) + if out.Throttled? then [] else [startedAt]
      ensures Refreshed(old(run), run, dest, published) && (published.Some? <==> out.Mirrored?)
      ensures published.Some? ==> Publishes(published.value, out.rel) && dest == Some(e.dir(out.rel))
      ensures out.Failed? ==>
                SameButDirs(old(Now()), Now()) && FailsSafely(old(disk), disk, dest, out.why, faulty)
      ensures out.Unchanged? ==>
                current == old(current) && KeepsCurrent(lib, old(disk), disk, old(current), up, out)
      ensures out.Mirrored? ==>
                current == Some(out.rel) && PublishesLatest(lib, old(disk), disk, out, up, old(CurrentDir()))
      ensures out.Unchanged? && !faulty ==> NoLeftovers(disk)
      ensures !faulty && !out.Throttled? ==> SettledBy(lib, old(disk), old(current), up, out)
    {
      dest, published, faulty := None, None, false;
      CountCall(checkedAt, startedAt);
      FloorEnds(minInterval, lastAttempt, checkedAt);
      var wait := Remaining(minInterval, lastAttempt, checkedAt);
      if wait > 0 {
        out := Throttled(wait);
        return;
      }
      lastAttempt := Some(startedAt);
      out, dest, published := Attempt(up);
    }

    /** Load: adopts what a previous process recorded, if all of it checks out. */
    method Load() returns (r: LoadResult)
      requires Valid() && Now().aside.None?
      modifies this`disk, this`current, this`run, this`faulty
      ensures Valid() && Now().aside.None?
      ensures SameGenerations(old(disk.dirs), disk.dirs) && disk.state == old(disk.state)
      ensures r.Loaded? ==> Adopted(e, old(disk)) == Some(r.rel) && current == Some(r.rel)
      ensures r.Loaded? ==> run.Then? && run.action == Adopt(r.rel) && Quietly(old(run), run.prefix)
      ensures !r.Loaded? ==> current == old(current) && Quietly(old(run), run)
      ensures r.ColdCache? <==> disk.state.NoState? && !r.LoadFault?
      ensures !faulty && Adopted(e, old(disk)).Some? ==> r.Loaded?
      ensures r.Rejected? ==> disk.state != NoState && Adopted(e, old(disk)).None?
      ensures r.LoadFault? ==> faulty
      ensures !faulty ==> NoLeftovers(disk)
    {
      faulty := false;
      var left := PruneStaging();
      var fails := CallFails();
      if fails {
        faulty := true;
        return LoadFault;
      }
      if disk.state.NoState? {
        return ColdCache;
      }
      if disk.state.BadState? {
        return Rejected;
      }
      var rel := disk.state.rel;
      if !e.loadable(rel) {
        return Rejected;
      }
      var verdict := VerifyCached(rel);
      AdoptedSame(e, old(disk), disk);
      if verdict.IoFault? {
        faulty := true;
        return LoadFault;
      }
      if verdict.Broken? {
        return Rejected;
      }
      Advance(Adopt(rel));
      current := Some(rel);
      return Loaded(rel);
    }

    /** Open: a file of the published release, with that release. */
    method Open(name: string) returns (r: Result<(Bytes, Release), ReadError>)
      ensures r.Ok? ==> current == Some(r.value.1) && name in r.value.1.files
                        && FileAt(disk, e.dir(r.value.1), name) == Some(r.value.0)
      ensures r == Err(NotCached) <==> current.None? || name !in current.value.files
      ensures r == Err(Missing) <==>
                current.Some? && name in current.value.files && FileAt(disk, e.dir(current.value), name).None?
      ensures r == Err(ReadFault) ==> !reliable
    {
      if current.None? || name !in current.value.files {
        return Err(NotCached);
      }
      var content := FileAt(disk, e.dir(current.value), name);
      if content.None? {
        return Err(Missing);
      }
      var fails := CallFails();
      if fails {
        return Err(ReadFault);
      }
      return Ok((content.value, current.value));
    }

    /** OpenAt: a file of one generation, whichever is on disk; both names are validated. */
    method OpenAt(generation: string, name: string) returns (r: Result<Bytes, ReadError>)
      ensures r.Ok? ==> ValidTag(generation) && ValidAssetName(name) && FileAt(disk, generation, name) == Some(r.value)
      ensures r == Err(NotCached) <==>
              !ValidTag(generation) || !ValidAssetName(name) || FileAt(disk, generation, name).None?
      ensures r == Err(ReadFault) ==> !reliable
    {
      if !ValidTag(generation) || !ValidAssetName(name) {
        return Err(NotCached);
      }
      var content := FileAt(disk, generation, name);
      if content.None? {
        return Err(NotCached);
      }
      var fails := CallFails();
      if fails {
        return Err(ReadFault);
      }
      return Ok(content.value);
    }
  }

  /** Whatever its methods have done, the state of a mirror is inside the invariant. */
  lemma MirrorIsSound(m: Mirror)
    requires m.Valid() && SoundFrom(m.e, m.run)
    ensures Sound(m.e, m.Now())
  {
    SoundFromIsSoundRun(m.e, m.run);
    AlwaysSound(m.e, m.run.Hist(), m.run.Acts(), |m.run.Acts()|);
  }

  /** A release that was current at some earlier point, in this process or another, is still
      in place on the mirror's disk until two further different generations are served. */
  lemma MirrorKeepsPublishedFiles(m: Mirror, p: Run, r: Release)
    requires m.Valid() && SoundFrom(m.e, m.run) && Earlier(p, m.run) && p.Last().current == Some(r)
    requires m.Now().generations <= p.Last().generations + 1 && m.Now().blind == p.Last().blind
    requires m.e.dir(r) !in Suspect(m.Now())
    ensures InPlace(m.e, m.disk, r)
  {
    SoundFromIsSoundRun(m.e, m.run);
    EarlierHistory(p, m.run);
    PublishedFilesStay(m.e, m.run.Hist(), m.run.Acts(), |p.Acts()|, |m.run.Acts()|, r);
  }

  /** Whatever its refreshes did, the attempts of a mirror keep to the floor: a window of
      length w holds at most w / minInterval + 1 of them. */
  lemma MirrorKeepsTheFloor(m: Mirror, i: nat, j: nat, w: nat)
    requires m.minInterval > 0 && Chronological(m.calls, None) && i <= j < |m.MadeAttempts()|
    requires m.MadeAttempts()[j] - m.MadeAttempts()[i] <= w
    ensures j - i + 1 <= w / m.minInterval + 1
  {
    AttemptsInAWindow(m.minInterval, None, m.calls, i, j, w);
  }

  lemma EffectAroundStaging(before: Disk, made: Disk, done: Disk, after: Disk, out: Outcome, dest: string,
                            previousDir: string)
    requires SameGenerations(before.dirs, made.dirs) && before.state == made.state && !IsStaging(dest)
    requires SameGenerations(done.dirs, after.dirs) && done.state == after.state
    requires forall n | n in after.dirs :: n in done.dirs
    ensures out.Failed? && FailureEffect(made.dirs, done.dirs, dest, out.why) ==>
              FailureEffect(before.dirs, after.dirs, dest, out.why)
    ensures out.Mirrored? && MirroredEffect(made, done, out, dest, previousDir) ==>
              MirroredEffect(before, after, out, dest, previousDir) && after.dirs[dest] == done.dirs[dest]
  {}

  /** A staging directory made, used and removed leaves the disk as it was. */
  lemma NoTrace(before: Disk, made: Disk, done: Disk, after: Disk, staging: string)
    requires staging !in before.dirs && made == before.(dirs := before.dirs[staging := map[]])
    requires OnlyIn(made, done, staging)
    requires after == done.(dirs := after.dirs) && staging !in after.dirs
    requires after.dirs - {staging} == done.dirs - {staging}
    ensures after == before
  {
    assert after.dirs == after.dirs - {staging};
    assert before.dirs == made.dirs - {staging};
  }

  lemma AdoptedSame(e: Env, before: Disk, after: Disk)
    requires SameGenerations(before.dirs, after.dirs) && before.state == after.state
    requires after.state.Recorded? && e.loadable(after.state.rel) ==> !IsStaging(e.dir(after.state.rel))
    ensures Adopted(e, before) == Adopted(e, after)
  {}

  lemma StagingOnly(before: Disk, after: Disk, staging: string)
    requires OnlyIn(before, after, staging) && IsStaging(staging)
    ensures SameGenerations(before.dirs, after.dirs)
  {
    RemovalKeepsOthers(before.dirs, after.dirs, staging);
  }

  lemma EffectOfPublishing(before: Disk, mid: Disk, after: Disk, out: Outcome, dest: string, previousDir: string,
                           files: Files)
    requires out.Mirrored? && Replaced(before.dirs, mid.dirs, dest, files) && !IsStaging(dest) && dest != ""
    requires mid.state == before.state
    requires after.state == if out.recorded then Recorded(out.rel) else mid.state
    requires previousDir == dest ==> SameGenerations(mid.dirs, after.dirs)
    requires forall n | n in mid.dirs && !IsStaging(n) && (n == dest || n == previousDir) && n != "" ::
               n in after.dirs && after.dirs[n] == mid.dirs[n]
    requires forall n | n in after.dirs && previousDir != dest ::
               n in mid.dirs && (n in {dest, previousDir} || n in out.left)
    requires forall n | n in after.dirs && IsStaging(n) && previousDir == dest :: n in out.left
    ensures MirroredEffect(before, after, out, dest, previousDir) && after.dirs[dest] == files
  {}

  lemma EffectAfterStaging(before: Disk, mid: Disk, after: Disk, out: Outcome, dest: string, previousDir: string)
    requires SameGenerations(before.dirs, mid.dirs) && before.state == mid.state && !IsStaging(dest)
    ensures out.Failed? && FailureEffect(mid.dirs, after.dirs, dest, out.why) ==>
              FailureEffect(before.dirs, after.dirs, dest, out.why)
    ensures out.Mirrored? && MirroredEffect(mid, after, out, dest, previousDir) ==>
              MirroredEffect(before, after, out, dest, previousDir)
  {}

  lemma RemovalKeepsOthers(before: map<string, Files>, after: map<string, Files>, name: string)
    requires after - {name} == before - {name}
    ensures forall n | n != name :: (n in before <==> n in after) && (n in before ==> after[n] == before[n])
  {
    forall n | n != name ensures (n in before <==> n in after) && (n in before ==> after[n] == before[n]) {
      assert n in before <==> n in before - {name};
      assert n in after <==> n in after - {name};
      assert n in before ==> (before - {name})[n] == before[n];
      assert n in after ==> (after - {name})[n] == after[n];
    }
  }

  lemma ParkingCleared(before: map<string, Files>, after: map<string, Files>, dest: string, staging: string)
    requires after - {Parked(dest)} == before - {Parked(dest)} && staging in before && staging != Parked(dest)
    ensures SameGenerations(before, after) && staging in after && after[staging] == before[staging]
  {
    RemovalKeepsOthers(before, after, Parked(dest));
  }

  lemma DigitsAreNotParked(suffix: string, d: string)
    requires AllDigits(suffix)
    ensures STAGING_PREFIX + suffix != Parked(d)
  {
    var n := |STAGING_PREFIX|;
    assert Parked(d)[n] == 'r';
    if |suffix| > 0 {
      assert (STAGING_PREFIX + suffix)[n] == suffix[0] && suffix[0] in suffix;
    }
  }
}
