/** Short runs that show the exceptions of cache safety to be real: two after which a restart
    comes up empty, and one that drops a served generation at the first change. Releases a,
    b and c each hold one manifest. */
module CacheExceptions {
  import opened Text
  import opened Releases
  import opened CacheProtocol
  import opened CacheSafety
  import opened CacheRuns

  function ExampleEnv(): Env {
    Env((r: Release) => r.tag, (b: Bytes, d: string) => b == d, (b: Bytes, fs: seq<string>) => true,
        (r: Release) => MANIFEST_NAME in r.files)
  }

  function OneFile(tag: string): Release { Release(tag, [MANIFEST_NAME], 0, map[MANIFEST_NAME := tag], "") }

  function Content(tag: string): Files { map[MANIFEST_NAME := tag] }

  const A := "a"
  const B := "b"
  const C := "c"
  const STAGING := ".staging-1"

  lemma ContentIsChecked(tag: string)
    requires |tag| == 1
    ensures CheckedCopy(ExampleEnv(), Content(tag), OneFile(tag))
    ensures Verified(ExampleEnv(), Content(tag), OneFile(tag))
  {}

  /** Release a is served; state.json holds `state`. */
  function ServingWith(state: StateFile): Sys {
    Sys(Disk(map[A := Content(A)], state, NoState), Some(OneFile(A)), Some(OneFile(A)), None, None,
        {}, {}, {OneFile(A)}, 0, 0, 0)
  }

  /** Release a is served and recorded. */
  function Serving(): Sys { ServingWith(Recorded(OneFile(A))) }

  /** The run meets what the theorems about runs ask for, and starts in `start`. */
  ghost predicate IsExample(r: Run, start: Sys) {
    && IsRun(ExampleEnv(), r) && r.Beginning() == start && Sound(ExampleEnv(), start)
    && NoCollisions(ExampleEnv(), r.Last().checked)
  }

  /** Releases of the one-file kind cannot share a directory. */
  ghost predicate OneFileEach(s: Sys) { forall r | r in s.checked :: r == OneFile(r.tag) }

  lemma OneFileEachNeverCollides(s: Sys)
    requires OneFileEach(s)
    ensures NoCollisions(ExampleEnv(), s.checked)
  {}

  /** A run of one process that never gets to write its state file. */
  predicate Unrecorded(r: Run) {
    r.Then? ==> !r.action.Record? && !r.action.Restart? && !r.action.Damage? && Unrecorded(r.prefix)
  }

  lemma ServingIsSound(state: StateFile)
    requires state == NoState || state == Recorded(OneFile(A))
    ensures Sound(ExampleEnv(), ServingWith(state)) && Suspect(ServingWith(state)) == {}
    ensures Adopted(ExampleEnv(), ServingWith(state).disk) == if state.Recorded? then Some(OneFile(A)) else None
  {
    ContentIsChecked(A);
  }

  // ----- Two publications in a row that are not recorded -----

  /** Another release served, with nothing written to state.json. */
  function Changed(s: Sys, tag: string): Sys {
    s.(disk := s.disk.(dirs := s.disk.dirs[tag := Content(tag)]), checked := s.checked + {OneFile(tag)},
       current := Some(OneFile(tag)), served := Some(OneFile(tag)), previous := s.current,
       publications := s.publications + 1, generations := s.generations + 1,
       blind := s.blind + if s.current.None? then 1 else 0)
  }

  ghost predicate CanChange(s: Sys, tag: string) {
    && |tag| == 1 && tag !in s.disk.dirs && STAGING !in s.disk.dirs
    && (s.current.Some? ==> s.current.value.tag != tag)
    && s.aside.None? && s.lost == {} && s.damaged == {}
  }

  /** Staged under a temporary name, renamed, not yet published. */
  function InPlaceOf(s: Sys, tag: string): Sys {
    s.(disk := s.disk.(dirs := s.disk.dirs[tag := Content(tag)]), checked := s.checked + {OneFile(tag)})
  }

  lemma InstallOne(s: Sys, tag: string)
    requires CanChange(s, tag)
    ensures var e, staged := ExampleEnv(), WithDirs(s, s.disk.dirs[STAGING := Content(tag)]);
            && Enabled(e, s, SetStaging(STAGING, Content(tag)))
            && Apply(e, s, SetStaging(STAGING, Content(tag))) == staged
            && Enabled(e, staged, Install(STAGING, OneFile(tag)))
            && Apply(e, staged, Install(STAGING, OneFile(tag))) == InPlaceOf(s, tag)
  {
    ContentIsChecked(tag);
    var dirs := s.disk.dirs[STAGING := Content(tag)];
    assert Moved(dirs, STAGING, tag) == s.disk.dirs[tag := Content(tag)];
  }

  lemma PublishOne(s: Sys, tag: string)
    requires CanChange(s, tag)
    ensures Enabled(ExampleEnv(), InPlaceOf(s, tag), Publish(OneFile(tag)))
    ensures Apply(ExampleEnv(), InPlaceOf(s, tag), Publish(OneFile(tag))) == Changed(s, tag)
  {
    ContentIsChecked(tag);
  }

  /** The calls of one such refresh. */
  function ChangeRun(r: Run, tag: string): Run {
    var s := r.Last();
    Then(Then(Then(r, SetStaging(STAGING, Content(tag)), WithDirs(s, s.disk.dirs[STAGING := Content(tag)])),
              Install(STAGING, OneFile(tag)), InPlaceOf(s, tag)),
         Publish(OneFile(tag)), Changed(s, tag))
  }

  lemma ChangeRunIsRun(r: Run, tag: string)
    requires IsRun(ExampleEnv(), r) && CanChange(r.Last(), tag)
    ensures IsRun(ExampleEnv(), ChangeRun(r, tag)) && ChangeRun(r, tag).Last() == Changed(r.Last(), tag)
    ensures Unrecorded(r) ==> Unrecorded(ChangeRun(r, tag))
    ensures OneFileEach(r.Last()) ==> OneFileEach(Changed(r.Last(), tag))
    ensures ChangeRun(r, tag).Beginning() == r.Beginning()
  {
    InstallOne(r.Last(), tag);
    PublishOne(r.Last(), tag);
    assert ChangeRun(r, tag).prefix.prefix.Beginning() == r.Beginning();
  }

  /** The clean-up of the oldest of three generations: its file, then its directory. */
  function Pruned(r: Run): Run
    requires A in r.Last().disk.dirs
  {
    var s := FileEvicted(r.Last(), A, MANIFEST_NAME);
    Then(Then(r, EvictFile(A, MANIFEST_NAME), s), EvictDir(A), WithDirs(s, s.disk.dirs - {A}))
  }

  lemma PrunedIsRun(r: Run)
    requires IsRun(ExampleEnv(), r) && A in r.Last().disk.dirs && r.Last().aside.None?
    requires r.Last().current.Some? && r.Last().served.Some? && r.Last().served.value.tag != A
    requires r.Last().previous.Some? ==> r.Last().previous.value.tag != A
    ensures IsRun(ExampleEnv(), Pruned(r)) && Pruned(r).Last().disk.dirs == r.Last().disk.dirs - {A}
    ensures Pruned(r).Last().disk.state == r.Last().disk.state
    ensures Pruned(r).Last() == r.Last().(disk := Pruned(r).Last().disk)
    ensures Unrecorded(r) ==> Unrecorded(Pruned(r))
    ensures Pruned(r).Beginning() == r.Beginning()
  {
    var e, s := ExampleEnv(), r.Last();
    assert !IsStaging(A) && !KeptDir(e, s, A);
    assert Enabled(e, s, EvictFile(A, MANIFEST_NAME));
    assert Enabled(e, FileEvicted(s, A, MANIFEST_NAME), EvictDir(A));
  }

  lemma CanChangeTwice()
    ensures CanChange(Serving(), B) && CanChange(Changed(Serving(), B), C)
    ensures OneFileEach(Serving())
  {}

  function OneChange(): Run { ChangeRun(Start(Serving()), B) }

  lemma OneChangeIsRun()
    ensures IsRun(ExampleEnv(), OneChange()) && OneChange().Last() == Changed(Serving(), B)
    ensures Unrecorded(OneChange()) && OneChange().Beginning() == Serving() && OneFileEach(Changed(Serving(), B))
  {
    CanChangeTwice();
    ChangeRunIsRun(Start(Serving()), B);
  }

  lemma TwoChangesIsRun() returns (r: Run)
    ensures IsRun(ExampleEnv(), r) && r.Last() == Changed(Changed(Serving(), B), C)
    ensures Unrecorded(r) && r.Beginning() == Serving() && OneFileEach(r.Last())
  {
    CanChangeTwice();
    OneChangeIsRun();
    ChangeRunIsRun(OneChange(), C);
    r := ChangeRun(OneChange(), C);
  }

  /** Nothing is set aside, lost or damaged, yet no restart can serve: the record names a
      generation that was evicted after the second publication. */
  lemma TwoUnrecordedChangesLoseTheRecord() returns (r: Run)
    ensures IsExample(r, Serving()) && Unrecorded(r) && Suspect(r.Last()) == {}
    ensures r.Last().disk.state == Recorded(OneFile(A)) && Adopted(ExampleEnv(), r.Last().disk) == None
  {
    ServingIsSound(Recorded(OneFile(A)));
    var changed := TwoChangesIsRun();
    PrunedIsRun(changed);
    r := Pruned(changed);
    OneFileEachNeverCollides(r.Last());
  }

  // ----- An in-place repair, cut between its two renames -----

  /** The served generation downloaded again. */
  function Downloaded(): Sys { WithDirs(Serving(), Serving().disk.dirs[STAGING := Content(A)]) }

  /** The old copy set aside, the new one not yet renamed. */
  function Between(): Sys {
    WithDirs(Downloaded(), Moved(Downloaded().disk.dirs, A, Parked(A))).(aside := Some(A))
  }

  lemma SetAsideA()
    ensures Enabled(ExampleEnv(), Downloaded(), SetAside(A))
    ensures Apply(ExampleEnv(), Downloaded(), SetAside(A)) == Between() && A !in Between().disk.dirs
  {
    assert !IsStaging(A);
    assert |Parked(A)| > |STAGING| > |A|;
  }

  /** The process ends there, and the next one finds nothing to serve. */
  lemma InterruptedRepairLosesTheRecord() returns (r: Run)
    ensures IsExample(r, Serving()) && Unrecorded(r)
    ensures Preparing(Start(Serving()), r, Some(A))
    ensures r.Last().disk.state == Recorded(OneFile(A)) && Adopted(ExampleEnv(), r.Last().disk) == None
    ensures Adopted(ExampleEnv(), Rebooted(r.Last()).disk) == None
  {
    ServingIsSound(Recorded(OneFile(A)));
    OneFileEachNeverCollides(Between());
    SetAsideA();
    var begun := Start(Serving());
    assert begun.Last() == Serving() && IsRun(ExampleEnv(), begun);
    assert Enabled(ExampleEnv(), Serving(), SetStaging(STAGING, Content(A)));
    var staged := Then(begun, SetStaging(STAGING, Content(A)), Downloaded());
    assert IsRun(ExampleEnv(), staged) && staged.Beginning() == Serving();
    r := Then(staged, SetAside(A), Between());
  }

  // ----- A publication by a process that adopted nothing -----

  /** Release a was served, but its state could not be written; then the process ended. */
  function Forgotten(): Run { Then(Start(ServingWith(NoState)), Restart, Rebooted(ServingWith(NoState))) }

  lemma ForgottenIsRun()
    ensures IsRun(ExampleEnv(), Forgotten()) && Forgotten().Beginning() == ServingWith(NoState)
    ensures CanChange(Forgotten().Last(), B) && OneFileEach(Forgotten().Last())
  {
    assert IsRun(ExampleEnv(), Start(ServingWith(NoState)));
  }

  /** The new process finds no record to adopt and knows of no predecessor to keep, so the
      first change of generation loses the old one. */
  lemma BlindPublicationEvicts() returns (r: Run)
    ensures Adopted(ExampleEnv(), Forgotten().Last().disk) == None
    ensures IsExample(r, ServingWith(NoState))
    ensures r.Last().generations == r.Beginning().generations + 1 && r.Last().blind == r.Beginning().blind + 1
    ensures A !in r.Last().disk.dirs && Suspect(r.Last()) == {}
  {
    ServingIsSound(NoState);
    ForgottenIsRun();
    ChangeRunIsRun(Forgotten(), B);
    PrunedIsRun(ChangeRun(Forgotten(), B));
    r := Pruned(ChangeRun(Forgotten(), B));
    OneFileEachNeverCollides(r.Last());
  }
}
