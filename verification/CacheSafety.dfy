/** What holds at every step of every run of the cache protocol. A run may be cut
    after any action (a crash) and looked at between any two of them (a reader). */
module CacheSafety {
  import opened Text
  import opened Releases
  import opened CacheProtocol

  ghost predicate StepAt(e: Env, hist: seq<Sys>, acts: seq<Action>, i: nat)
    requires |hist| == |acts| + 1 && i < |acts|
  {
    Enabled(e, hist[i], acts[i]) && hist[i + 1] == Apply(e, hist[i], acts[i])
  }

  /** `hist` is a run: each state follows from the one before by an enabled action. */
  ghost predicate IsTrace(e: Env, hist: seq<Sys>, acts: seq<Action>) {
    |hist| == |acts| + 1 && forall i | 0 <= i < |acts| :: StepAt(e, hist, acts, i)
  }

  /** What is left of a run from its n-th state on is a run. */
  lemma TraceSuffix(e: Env, hist: seq<Sys>, acts: seq<Action>, n: nat)
    requires IsTrace(e, hist, acts) && n <= |acts|
    ensures IsTrace(e, hist[n..], acts[n..])
  {
    var h, t := hist[n..], acts[n..];
    forall i | 0 <= i < |t| ensures StepAt(e, h, t, i) {
      assert StepAt(e, hist, acts, n + i);
    }
  }

  /** So is what comes before its n-th state. */
  lemma TracePrefix(e: Env, hist: seq<Sys>, acts: seq<Action>, n: nat)
    requires IsTrace(e, hist, acts) && n <= |acts|
    ensures IsTrace(e, hist[..n + 1], acts[..n])
  {
    var h, t := hist[..n + 1], acts[..n];
    forall i | 0 <= i < |t| ensures StepAt(e, h, t, i) {
      assert StepAt(e, hist, acts, i);
    }
  }

  ghost predicate SoundRun(e: Env, hist: seq<Sys>, acts: seq<Action>) {
    IsTrace(e, hist, acts) && Sound(e, hist[0]) && NoCollisions(e, hist[|acts|].checked)
  }

  lemma {:induction false} CheckedGrows(e: Env, hist: seq<Sys>, acts: seq<Action>, i: nat, j: nat)
    requires IsTrace(e, hist, acts) && i <= j <= |acts|
    ensures hist[i].checked <= hist[j].checked
    decreases j - i
  {
    if i < j {
      assert StepAt(e, hist, acts, i);
      CheckedGrows(e, hist, acts, i + 1, j);
    }
  }

  /** The invariant holds after every single action of a run. */
  lemma {:induction false} AlwaysSound(e: Env, hist: seq<Sys>, acts: seq<Action>, k: nat)
    requires SoundRun(e, hist, acts) && k <= |acts|
    ensures Sound(e, hist[k]) && NoCollisions(e, hist[k].checked)
    decreases k
  {
    CheckedGrows(e, hist, acts, k, |acts|);
    if k > 0 {
      AlwaysSound(e, hist, acts, k - 1);
      assert StepAt(e, hist, acts, k - 1);
      SoundStep(e, hist[k - 1], acts[k - 1]);
    }
  }

  /** Every file that stands under a generation name carries the digest a checked
      release of that name recorded for it. */
  lemma ServedFilesAreChecked(e: Env, hist: seq<Sys>, acts: seq<Action>, k: nat, d: string, f: string)
    requires SoundRun(e, hist, acts) && k <= |acts|
    requires d in hist[k].disk.dirs && !IsStaging(d) && d !in Suspect(hist[k]) && f in hist[k].disk.dirs[d]
    ensures exists r :: r in hist[k].checked && e.dir(r) == d && f in r.sums
                        && e.digestOk(hist[k].disk.dirs[d][f], r.sums[f])
  {
    AlwaysSound(e, hist, acts, k);
    var s := hist[k];
    assert Faithful(e, s, d, s.disk.dirs[d]);
    var r :| r in s.checked && e.dir(r) == d && Authentic(e, s.disk.dirs[d], r);
    assert r in s.checked && f in r.sums;
  }

  // ----- When the served directory is missing -----

  ghost predicate Undisturbed(hist: seq<Sys>, acts: seq<Action>)
    requires |hist| > 0
  {
    hist[0].damaged == {} && forall a | a in acts :: !a.Damage?
  }

  lemma {:induction false} NothingDamaged(e: Env, hist: seq<Sys>, acts: seq<Action>, k: nat)
    requires IsTrace(e, hist, acts) && Undisturbed(hist, acts) && k <= |acts|
    ensures hist[k].damaged == {}
    decreases k
  {
    if k > 0 {
      NothingDamaged(e, hist, acts, k - 1);
      assert StepAt(e, hist, acts, k - 1);
      assert acts[k - 1] in acts;
    }
  }

  /** Without outside interference the directory of the published release is missing
      exactly between the two renames of an in-place replacement, or after both the
      publish rename and the restore failed; when present it is complete. */
  lemma CurrentAbsentOnlyInTheWindow(e: Env, hist: seq<Sys>, acts: seq<Action>, k: nat, r: Release)
    requires SoundRun(e, hist, acts) && Undisturbed(hist, acts) && k <= |acts|
    requires hist[k].current == Some(r)
    ensures e.dir(r) !in hist[k].disk.dirs <==> hist[k].aside == Some(e.dir(r)) || e.dir(r) in hist[k].lost
    ensures e.dir(r) in hist[k].disk.dirs ==> Verified(e, hist[k].disk.dirs[e.dir(r)], r)
  {
    AlwaysSound(e, hist, acts, k);
    NothingDamaged(e, hist, acts, k);
    var s := hist[k];
    assert KeptDir(e, s, e.dir(r));
    if e.dir(r) in s.disk.dirs {
      assert Faithful(e, s, e.dir(r), s.disk.dirs[e.dir(r)]);
    }
  }

  // ----- Readers -----

  /** A reader that took release `r` from the published pointer at step `i` and opens
      a file of it at any later step `j` never gets bytes `r` does not describe. */
  lemma ReadersNeverSeeOtherBytes(e: Env, hist: seq<Sys>, acts: seq<Action>, i: nat, j: nat, r: Release, f: string)
    requires SoundRun(e, hist, acts) && i <= j <= |acts|
    requires hist[i].current == Some(r)
    requires e.dir(r) !in Suspect(hist[j]) && e.dir(r) in hist[j].disk.dirs && f in hist[j].disk.dirs[e.dir(r)]
    ensures f in r.files && f in r.sums && e.digestOk(hist[j].disk.dirs[e.dir(r)][f], r.sums[f])
  {
    AlwaysSound(e, hist, acts, i);
    AlwaysSound(e, hist, acts, j);
    CheckedGrows(e, hist, acts, i, j);
    ServedFilesAreChecked(e, hist, acts, j, e.dir(r), f);
    var q :| q in hist[j].checked && e.dir(q) == e.dir(r) && f in q.sums
             && e.digestOk(hist[j].disk.dirs[e.dir(r)][f], q.sums[f]);
    assert q.sums == r.sums;
  }

  /** One change of generation at most since `dir` was the served one, and every process
      in between has adopted something before it published. */
  ghost predicate StillKept(e: Env, s: Sys, dir: string, generations: nat, blind: nat) {
    && s.generations >= generations && s.blind >= blind && s.served.Some?
    && (s.current.Some? ==> s.served == s.current)
    && (s.blind == blind ==>
          && (s.generations == generations ==> e.dir(s.served.value) == dir)
          && (s.generations == generations + 1 ==> KeptDir(e, s, dir)))
  }

  lemma StillKeptStep(e: Env, s: Sys, a: Action, dir: string, generations: nat, blind: nat)
    requires Enabled(e, s, a) && StillKept(e, s, dir, generations, blind)
    ensures StillKept(e, Apply(e, s, a), dir, generations, blind)
  {}

  lemma {:induction false} KeptUntilTwoChanges(e: Env, hist: seq<Sys>, acts: seq<Action>, i: nat, j: nat, r: Release)
    requires IsTrace(e, hist, acts) && i <= j <= |acts| && hist[i].current == hist[i].served == Some(r)
    ensures StillKept(e, hist[j], e.dir(r), hist[i].generations, hist[i].blind)
    decreases j
  {
    if i < j {
      KeptUntilTwoChanges(e, hist, acts, i, j - 1, r);
      assert StepAt(e, hist, acts, j - 1);
      StillKeptStep(e, hist[j - 1], acts[j - 1], e.dir(r), hist[i].generations, hist[i].blind);
    }
  }

  /** Until two further different generations are served, every file of a release that
      was once current stays under its generation name with its own digest, over any mix
      of successful, failed, repairing and rolled-back refreshes and over any number of
      processes, as long as none of them publishes without having adopted anything. */
  lemma PublishedFilesStay(e: Env, hist: seq<Sys>, acts: seq<Action>, i: nat, j: nat, r: Release)
    requires SoundRun(e, hist, acts) && i <= j <= |acts| && hist[i].current == Some(r)
    requires hist[j].generations <= hist[i].generations + 1 && hist[j].blind == hist[i].blind
    requires e.dir(r) !in Suspect(hist[j])
    ensures e.loadable(r) && e.dir(r) in hist[j].disk.dirs && Verified(e, hist[j].disk.dirs[e.dir(r)], r)
  {
    AlwaysSound(e, hist, acts, i);
    AlwaysSound(e, hist, acts, j);
    CheckedGrows(e, hist, acts, i, j);
    KeptUntilTwoChanges(e, hist, acts, i, j, r);
    KeptIsVerified(e, hist[j], r);
  }

  /** Within one process there is no such publication once something is served. */
  lemma {:induction false} OneProcessIsNeverBlind(e: Env, hist: seq<Sys>, acts: seq<Action>, i: nat, j: nat)
    requires IsTrace(e, hist, acts) && i <= j <= |acts| && hist[i].current.Some?
    requires forall k | i <= k < j :: !acts[k].Restart?
    ensures hist[j].blind == hist[i].blind && hist[j].current.Some?
    decreases j
  {
    if i < j {
      OneProcessIsNeverBlind(e, hist, acts, i, j - 1);
      assert StepAt(e, hist, acts, j - 1);
    }
  }

  // ----- What the processes of a run know -----

  /** The directories served one after the other, as far as the process that publishes
      knows of them, and whether the present process serves anything. */
  datatype Known = Known(dirs: seq<string>, up: bool)

  function LastTwo(dirs: seq<string>): seq<string> {
    if |dirs| <= 2 then dirs else dirs[|dirs| - 2..]
  }

  function NowServing(known: Known, dir: string): Known
    requires known.dirs != []
  {
    Known(if dir != known.dirs[|known.dirs| - 1] then known.dirs + [dir] else known.dirs, true)
  }

  /** A publication by a process that has adopted nothing since its start knows of no
      directory but its own; any other, and an adoption, adds one when it changes it. */
  ghost function Learn(e: Env, known: Known, a: Action): (after: Known)
    requires known.dirs != []
    ensures after.dirs != []
  {
    match a
    case Restart => known.(up := false)
    case Publish(rel) => if known.up then NowServing(known, e.dir(rel)) else Known([e.dir(rel)], true)
    case Adopt(rel) => NowServing(known, e.dir(rel))
    case _ => known
  }

  /** What is known after some actions that start with `start` being served. */
  ghost function KnownAfter(e: Env, acts: seq<Action>, start: string): (known: Known)
    ensures known.dirs != []
  {
    if acts == [] then Known([start], true)
    else Learn(e, KnownAfter(e, acts[..|acts| - 1], start), acts[|acts| - 1])
  }

  ghost predicate Knows(e: Env, s: Sys, known: Known, start: string) {
    var dirs := known.dirs;
    && dirs != []
    && (s.current.Some? <==> known.up) && (s.current.Some? ==> s.served == s.current)
    && s.served.Some? && e.dir(s.served.value) == dirs[|dirs| - 1]
    && (|dirs| >= 2 ==> s.previous.Some? && e.dir(s.previous.value) == dirs[|dirs| - 2])
    && (|dirs| == 1 ==> dirs[0] == start || s.previous.None?)
  }

  lemma KnowsStep(e: Env, s: Sys, a: Action, known: Known, start: string)
    requires Enabled(e, s, a) && Knows(e, s, known, start)
    ensures Knows(e, Apply(e, s, a), Learn(e, known, a), start)
  {}

  lemma {:induction false} KnowsAlways(e: Env, hist: seq<Sys>, acts: seq<Action>, first: Release)
    requires IsTrace(e, hist, acts) && hist[0].current == hist[0].served == Some(first)
    ensures Knows(e, hist[|acts|], KnownAfter(e, acts, e.dir(first)), e.dir(first))
    decreases |acts|
  {
    if acts != [] {
      var n := |acts| - 1;
      TracePrefix(e, hist, acts, n);
      KnowsAlways(e, hist[..n + 1], acts[..n], first);
      assert StepAt(e, hist, acts, n);
      KnowsStep(e, hist[n], acts[n], KnownAfter(e, acts[..n], e.dir(first)), e.dir(first));
    }
  }

  lemma KeptMeansLastTwo(e: Env, s: Sys, known: Known, start: string)
    requires Knows(e, s, known, start)
    ensures KeptDir(e, s, start) <==> start in LastTwo(known.dirs)
  {
    var n := |known.dirs|;
    if n > 2 {
      assert LastTwo(known.dirs) == [known.dirs[n - 2], known.dirs[n - 1]];
    } else {
      assert forall k | 0 <= k < n :: known.dirs[k] in known.dirs;
    }
  }

  /** Once the old directories are gone, a release that was current is still there, complete,
      if and only if its directory is among the last two that the publications of the run
      leave known. A publication by a process that adopted nothing drops all but its own. */
  lemma PublishedFilesStayIff(e: Env, hist: seq<Sys>, acts: seq<Action>, i: nat, r: Release)
    requires SoundRun(e, hist, acts) && i <= |acts| && hist[i].current == Some(r)
    requires e.dir(r) !in Suspect(hist[|acts|])
    requires forall d | d in hist[|acts|].disk.dirs && !IsStaging(d) :: KeptDir(e, hist[|acts|], d)
    ensures InPlace(e, hist[|acts|].disk, r) <==> e.dir(r) in LastTwo(KnownAfter(e, acts[i..], e.dir(r)).dirs)
  {
    var s := hist[|acts|];
    AlwaysSound(e, hist, acts, i);
    AlwaysSound(e, hist, acts, |acts|);
    CheckedGrows(e, hist, acts, i, |acts|);
    TraceSuffix(e, hist, acts, i);
    assert hist[i..][0] == hist[i] && hist[i..][|acts[i..]|] == s;
    KnowsAlways(e, hist[i..], acts[i..], r);
    KeptMeansLastTwo(e, s, KnownAfter(e, acts[i..], e.dir(r)), e.dir(r));
    if KeptDir(e, s, e.dir(r)) {
      KeptIsVerified(e, s, r);
    }
  }

  /** The manifest of the published release, when it is in place, is one that was
      rendered before publication, for the same list of files. */
  lemma PublishedManifestWasRendered(e: Env, hist: seq<Sys>, acts: seq<Action>, k: nat, r: Release) returns (q: Release)
    requires SoundRun(e, hist, acts) && k <= |acts|
    requires hist[k].current == Some(r) && e.dir(r) !in Suspect(hist[k])
    ensures e.dir(r) in hist[k].disk.dirs && MANIFEST_NAME in hist[k].disk.dirs[e.dir(r)]
    ensures e.renders(hist[k].disk.dirs[e.dir(r)][MANIFEST_NAME], q.files) && forall f :: f in q.files <==> f in r.files
  {
    AlwaysSound(e, hist, acts, k);
    var s := hist[k];
    assert KeptDir(e, s, e.dir(r));
    var files := s.disk.dirs[e.dir(r)];
    assert Faithful(e, s, e.dir(r), files);
    assert FileOk(e, files, r, MANIFEST_NAME);
    q :| q in s.checked && e.dir(q) == e.dir(r) && Authentic(e, files, q);
    assert q.sums == r.sums;
  }

  lemma KeptIsVerified(e: Env, s: Sys, r: Release)
    requires Sound(e, s) && NoCollisions(e, s.checked) && r in s.checked
    requires KeptDir(e, s, e.dir(r)) && e.dir(r) !in Suspect(s)
    ensures e.dir(r) in s.disk.dirs && Verified(e, s.disk.dirs[e.dir(r)], r)
  {
    var files := s.disk.dirs[e.dir(r)];
    assert Faithful(e, s, e.dir(r), files);
    var q := if s.served.Some? && e.dir(s.served.value) == e.dir(r) then s.served.value else s.previous.value;
    assert Verified(e, files, q) && q.sums == r.sums;
    assert forall f :: f in r.files <==> f in q.files;
  }

  // ----- Crashes -----

  /** Where state.json may point after the run started from a recorded release. */
  ghost predicate RecordKept(e: Env, s: Sys, start: Sys, first: Release) {
    && s.disk.state.Recorded? && s.served.Some? && (s.current.Some? ==> s.served == s.current)
    && s.publications >= start.publications && s.generations >= start.generations && s.blind >= start.blind
    && (s.blind == start.blind ==>
          && (s.publications == start.publications ==> s.served == Some(first) && s.disk.state.rel == first)
          && (s.publications == start.publications + 1 ==>
                s.disk.state.rel == first || s.served == Some(s.disk.state.rel))
          && (s.publications <= start.publications + 1 ==> KeptDir(e, s, e.dir(s.disk.state.rel)))
          && (s.generations == start.generations ==> e.dir(s.disk.state.rel) == e.dir(s.served.value))
          && (s.generations == start.generations + 1 ==> KeptDir(e, s, e.dir(s.disk.state.rel))))
  }

  lemma RecordKeptStep(e: Env, s: Sys, a: Action, start: Sys, first: Release)
    requires Enabled(e, s, a) && RecordKept(e, s, start, first)
    ensures RecordKept(e, Apply(e, s, a), start, first)
  {}

  lemma {:induction false} RecordKeptAlways(e: Env, hist: seq<Sys>, acts: seq<Action>, k: nat, first: Release)
    requires IsTrace(e, hist, acts) && k <= |acts|
    requires hist[0].current == hist[0].served == Some(first) && hist[0].disk.state == Recorded(first)
    ensures RecordKept(e, hist[k], hist[0], first)
    decreases k
  {
    if k > 0 {
      RecordKeptAlways(e, hist, acts, k - 1, first);
      assert StepAt(e, hist, acts, k - 1);
      RecordKeptStep(e, hist[k - 1], acts[k - 1], hist[0], first);
    }
  }

  lemma RecordIsVerified(e: Env, s: Sys)
    requires Sound(e, s) && NoCollisions(e, s.checked) && s.disk.state.Recorded?
    requires KeptDir(e, s, e.dir(s.disk.state.rel)) && e.dir(s.disk.state.rel) !in Suspect(s)
    ensures Adopted(e, s.disk) == Some(s.disk.state.rel)
  {
    KeptIsVerified(e, s, s.disk.state.rel);
  }

  /** Crash safety: started from a recorded release and cut anywhere within one
      publication, a restart adopts exactly the old release or exactly the new one,
      unless the recorded generation is set aside or lost at that moment. Earlier
      restarts may be part of the run. */
  lemma CrashSafety(e: Env, hist: seq<Sys>, acts: seq<Action>, k: nat, first: Release)
    requires SoundRun(e, hist, acts) && Undisturbed(hist, acts) && k <= |acts|
    requires hist[0].current == Some(first) && hist[0].disk.state == Recorded(first)
    requires hist[k].publications <= hist[0].publications + 1 && hist[k].blind == hist[0].blind
    ensures var s := hist[k];
            && s.disk.state.Recorded?
            && (Adopted(e, s.disk).None? <==> e.dir(s.disk.state.rel) in Suspect(s))
            && (Adopted(e, s.disk).Some? ==> Adopted(e, s.disk) == Some(first) || Adopted(e, s.disk) == s.served)
  {
    RecordKeptAlways(e, hist, acts, k, first);
    AlwaysSound(e, hist, acts, k);
    NothingDamaged(e, hist, acts, k);
    if e.dir(hist[k].disk.state.rel) !in Suspect(hist[k]) {
      RecordIsVerified(e, hist[k]);
    }
  }

  /** What Refresh may do before it publishes: it sets aside nothing but its own destination. */
  predicate BeforePublish(a: Action, dest: Option<string>) {
    !a.Damage? && !a.Publish? && !a.Adopt? && !a.Restart? && (a.SetAside? ==> dest == Some(a.dir))
  }

  /** What it may do afterwards. */
  predicate AfterPublish(a: Action) {
    a.SetStaging? || a.DropStaging? || a.WriteTemp? || a.Record? || a.EvictFile? || a.EvictDir?
  }

  /** The actions of one Refresh; the one with index `m`, if there is one, publishes. */
  ghost predicate OneRefresh(e: Env, acts: seq<Action>, m: nat, dest: Option<string>) {
    && m <= |acts|
    && (forall i | 0 <= i < m :: BeforePublish(acts[i], dest))
    && (m < |acts| ==> acts[m].Publish? && dest == Some(e.dir(acts[m].rel)))
    && (forall i | m < i < |acts| :: AfterPublish(acts[i]))
  }

  /** No generation is set aside or damaged; some may have been lost before. */
  ghost predicate Settled(s: Sys) { s.aside.None? && s.damaged == {} }

  /** What is suspect was lost at the start, or is the destination. */
  ghost predicate OnlyNewSuspect(s: Sys, start: Sys, dest: Option<string>) {
    forall d | d in Suspect(s) :: d in start.lost || dest == Some(d)
  }

  lemma {:induction false} OnlyTheTargetIsSuspect(e: Env, hist: seq<Sys>, acts: seq<Action>, m: nat, k: nat,
                                                  dest: Option<string>)
    requires IsTrace(e, hist, acts) && k <= m && OneRefresh(e, acts, m, dest) && Settled(hist[0])
    ensures OnlyNewSuspect(hist[k], hist[0], dest)
    ensures hist[k].publications == hist[0].publications && hist[k].blind == hist[0].blind
    ensures hist[k].current == hist[0].current
    decreases k
  {
    if k > 0 {
      OnlyTheTargetIsSuspect(e, hist, acts, m, k - 1, dest);
      assert StepAt(e, hist, acts, k - 1);
      assert BeforePublish(acts[k - 1], dest);
    }
  }

  lemma RefreshIsUndisturbed(e: Env, hist: seq<Sys>, acts: seq<Action>, m: nat, dest: Option<string>)
    requires IsTrace(e, hist, acts) && OneRefresh(e, acts, m, dest) && hist[0].damaged == {}
    ensures Undisturbed(hist, acts)
  {
    forall a | a in acts ensures !a.Damage? {
      var i :| 0 <= i < |acts| && acts[i] == a;
      assert i < m ==> BeforePublish(acts[i], dest);
      assert i > m ==> AfterPublish(acts[i]);
    }
  }

  /** After the publication the destination is served and not suspect. */
  ghost predicate ServesTarget(e: Env, s: Sys, start: Sys, dest: Option<string>) {
    && s.current.Some? && dest == Some(e.dir(s.current.value)) && e.dir(s.current.value) !in Suspect(s)
    && s.publications == start.publications + 1 && (start.current.Some? ==> s.blind == start.blind)
  }

  lemma PublishServesTarget(e: Env, s: Sys, a: Action, start: Sys, dest: Option<string>)
    requires Sound(e, s) && Enabled(e, s, a) && a.Publish? && dest == Some(e.dir(a.rel)) && s.damaged == {}
    requires s.publications == start.publications && s.blind == start.blind && s.current == start.current
    ensures ServesTarget(e, Apply(e, s, a), start, dest)
  {}

  lemma {:induction false} TargetStaysServed(e: Env, hist: seq<Sys>, acts: seq<Action>, m: nat, k: nat,
                                             dest: Option<string>)
    requires SoundRun(e, hist, acts) && m < k <= |acts| && OneRefresh(e, acts, m, dest) && Settled(hist[0])
    ensures ServesTarget(e, hist[k], hist[0], dest) && OnlyNewSuspect(hist[k], hist[0], dest)
    decreases k
  {
    assert StepAt(e, hist, acts, k - 1);
    if k - 1 == m {
      OnlyTheTargetIsSuspect(e, hist, acts, m, m, dest);
      RefreshIsUndisturbed(e, hist, acts, m, dest);
      NothingDamaged(e, hist, acts, m);
      AlwaysSound(e, hist, acts, m);
      PublishServesTarget(e, hist[m], acts[m], hist[0], dest);
    } else {
      TargetStaysServed(e, hist, acts, m, k - 1, dest);
      assert AfterPublish(acts[k - 1]);
    }
  }

  /** A Refresh that brings in a different generation can be cut after any of its
      file-system calls: the next start adopts the old release or the new one. Other
      generations may have been lost before. */
  lemma GenerationChangeIsCrashSafe(e: Env, hist: seq<Sys>, acts: seq<Action>, m: nat, k: nat, first: Release,
                                    dest: Option<string>)
    requires SoundRun(e, hist, acts) && OneRefresh(e, acts, m, dest) && k <= |acts|
    requires hist[0].current == Some(first) && hist[0].disk.state == Recorded(first)
    requires Settled(hist[0]) && e.dir(first) !in hist[0].lost
    requires dest != Some(e.dir(first))
    ensures Adopted(e, hist[k].disk).Some?
    ensures Adopted(e, hist[k].disk) == Some(first) || Adopted(e, hist[k].disk) == hist[k].current
  {
    RefreshIsUndisturbed(e, hist, acts, m, dest);
    RecordKeptAlways(e, hist, acts, k, first);
    AlwaysSound(e, hist, acts, k);
    if k <= m {
      OnlyTheTargetIsSuspect(e, hist, acts, m, k, dest);
    } else {
      TargetStaysServed(e, hist, acts, m, k, dest);
    }
    CrashSafety(e, hist, acts, k, first);
  }

  /** Over any number of refreshes and processes a restart finds its recorded release
      until the generation has changed twice without state.json being rewritten. */
  lemma RestartWithinOneChange(e: Env, hist: seq<Sys>, acts: seq<Action>, k: nat, first: Release)
    requires SoundRun(e, hist, acts) && k <= |acts|
    requires hist[0].current == Some(first) && hist[0].disk.state == Recorded(first)
    requires hist[k].generations <= hist[0].generations + 1 && hist[k].blind == hist[0].blind
    requires hist[k].disk.state.Recorded? ==> e.dir(hist[k].disk.state.rel) !in Suspect(hist[k])
    ensures hist[k].disk.state.Recorded? && Adopted(e, hist[k].disk) == Some(hist[k].disk.state.rel)
  {
    AlwaysSound(e, hist, acts, 0);
    RecordKeptAlways(e, hist, acts, k, first);
    AlwaysSound(e, hist, acts, k);
    RecordIsVerified(e, hist[k]);
  }

  /** Once the old directories are gone, a restart finds its recorded release if and
      only if state.json names the served generation or the one it replaced. */
  lemma RestartFindsRecordIff(e: Env, s: Sys)
    requires Sound(e, s) && NoCollisions(e, s.checked) && s.disk.state.Recorded?
    requires e.dir(s.disk.state.rel) !in Suspect(s)
    requires forall d | d in s.disk.dirs && !IsStaging(d) :: KeptDir(e, s, d)
    ensures Adopted(e, s.disk) == Some(s.disk.state.rel) <==> KeptDir(e, s, e.dir(s.disk.state.rel))
  {
    if KeptDir(e, s, e.dir(s.disk.state.rel)) {
      RecordIsVerified(e, s);
    }
  }

  // ----- Publications that cannot be recorded -----

  lemma {:induction false} StateStaysUnrecorded(e: Env, hist: seq<Sys>, acts: seq<Action>, k: nat)
    requires IsTrace(e, hist, acts) && k <= |acts| && forall a | a in acts :: !a.Record?
    ensures hist[k].disk.state == hist[0].disk.state
    decreases k
  {
    if k > 0 {
      StateStaysUnrecorded(e, hist, acts, k - 1);
      assert StepAt(e, hist, acts, k - 1);
      assert acts[k - 1] in acts;
    }
  }

  /** Processes whose state file can never be written, after their clean-up: a restart
      finds the old record if and only if its directory is among the last two that the
      publications of the run leave known. */
  lemma UnrecordedRunsRestartIff(e: Env, hist: seq<Sys>, acts: seq<Action>, first: Release)
    requires SoundRun(e, hist, acts) && forall a | a in acts :: !a.Record?
    requires hist[0].current == Some(first) && hist[0].disk.state == Recorded(first)
    requires e.dir(first) !in Suspect(hist[|acts|])
    requires forall d | d in hist[|acts|].disk.dirs && !IsStaging(d) :: KeptDir(e, hist[|acts|], d)
    ensures Adopted(e, hist[|acts|].disk) == Some(first) <==>
              e.dir(first) in LastTwo(KnownAfter(e, acts, e.dir(first)).dirs)
  {
    var s := hist[|acts|];
    StateStaysUnrecorded(e, hist, acts, |acts|);
    AlwaysSound(e, hist, acts, 0);
    AlwaysSound(e, hist, acts, |acts|);
    RestartFindsRecordIff(e, s);
    KnowsAlways(e, hist, acts, first);
    KeptMeansLastTwo(e, s, KnownAfter(e, acts, e.dir(first)), e.dir(first));
  }

  /** The exception of crash safety, exactly: setting a generation aside makes the next
      start come up empty if and only if it is the recorded one. An in-place repair does. */
  lemma SetAsideLosesRestartIff(e: Env, s: Sys, dir: string)
    requires CanSetAside(s, dir) && Adopted(e, s.disk).Some?
    requires !IsStaging(e.dir(s.disk.state.rel))
    ensures Adopted(e, Apply(e, s, SetAside(dir)).disk).None? <==> dir == e.dir(s.disk.state.rel)
  {
    var t := Apply(e, s, SetAside(dir));
    assert IsStaging(Parked(dir));
    if dir != e.dir(s.disk.state.rel) {
      assert t.disk.dirs[e.dir(s.disk.state.rel)] == s.disk.dirs[e.dir(s.disk.state.rel)];
    }
  }

  // ----- The first process -----

  /** The empty directory the very first process creates. */
  function NewCache(): Sys {
    Sys(Disk(map[], NoState, NoState), None, None, None, None, {}, {}, {}, 0, 0, 0)
  }

  lemma NewCacheIsSound(e: Env)
    ensures Sound(e, NewCache())
  {}
}
