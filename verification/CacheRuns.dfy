/** A run of the cache protocol as it is being made, one action at a time. */
module CacheRuns {
  import opened Text
  import opened Releases
  import opened CacheProtocol
  import opened CacheSafety

  datatype Run = Start(first: Sys) | Then(prefix: Run, action: Action, state: Sys) {
    function Last(): Sys {
      if Start? then first else state
    }

    function Beginning(): Sys {
      if Start? then first else prefix.Beginning()
    }

    function Acts(): seq<Action> {
      if Start? then [] else prefix.Acts() + [action]
    }

    function Hist(): (h: seq<Sys>)
      ensures |h| == |Acts()| + 1 && h[|h| - 1] == Last()
    {
      if Start? then [first] else prefix.Hist() + [state]
    }
  }

  /** Every action of the run was enabled and had its effect. */
  ghost predicate IsRun(e: Env, r: Run) {
    r.Then? ==>
      && IsRun(e, r.prefix)
      && Enabled(e, r.prefix.Last(), r.action) && r.state == Apply(e, r.prefix.Last(), r.action)
  }

  /** `after` extends `before` by actions that may follow a publication. */
  predicate Quietly(before: Run, after: Run) {
    after == before || (after.Then? && AfterPublish(after.action) && Quietly(before, after.prefix))
  }

  /** `after` extends `before` by actions that may precede a publication. */
  predicate Preparing(before: Run, after: Run, dest: Option<string>) {
    after == before || (after.Then? && BeforePublish(after.action, dest) && Preparing(before, after.prefix, dest))
  }

  /** `after` extends `before` by one Refresh with destination `dest`. */
  predicate Refreshed(before: Run, after: Run, dest: Option<string>, published: Option<Run>) {
    match published
    case None => Preparing(before, after, dest)
    case Some(p) => p.Then? && p.action.Publish? && Preparing(before, p.prefix, dest) && Quietly(p, after)
  }

  lemma QuietlyTransitive(a: Run, b: Run, c: Run)
    requires Quietly(a, b) && Quietly(b, c)
    ensures Quietly(a, c)
  {}

  lemma PreparingTransitive(a: Run, b: Run, c: Run, dest: Option<string>)
    requires Preparing(a, b, dest) && Preparing(b, c, dest)
    ensures Preparing(a, c, dest)
  {}

  lemma RefreshedAfterPreparing(a: Run, b: Run, c: Run, dest: Option<string>, published: Option<Run>)
    requires Preparing(a, b, dest) && Refreshed(b, c, dest, published)
    ensures Refreshed(a, c, dest, published)
  {
    PreparingTransitive(a, b, if published.Some? then published.value.prefix else c, dest);
  }

  lemma RefreshedThenQuiet(a: Run, b: Run, c: Run, dest: Option<string>, published: Option<Run>)
    requires Refreshed(a, b, dest, published) && Quietly(b, c)
    ensures Refreshed(a, c, dest, published)
  {
    match published
    case None =>
      QuietIsPreparing(b, c, dest);
      PreparingTransitive(a, b, c, dest);
    case Some(p) => QuietlyTransitive(p, b, c);
  }

  lemma QuietIsPreparing(a: Run, b: Run, dest: Option<string>)
    requires Quietly(a, b)
    ensures Preparing(a, b, dest)
  {}

  lemma {:induction false} RunIsTrace(e: Env, r: Run)
    requires IsRun(e, r)
    ensures IsTrace(e, r.Hist(), r.Acts())
  {
    if r.Then? {
      RunIsTrace(e, r.prefix);
      var h, t := r.prefix.Hist(), r.prefix.Acts();
      forall i | 0 <= i < |t| + 1 ensures StepAt(e, r.Hist(), r.Acts(), i) {
        if i < |t| {
          assert StepAt(e, h, t, i);
        }
      }
    }
  }

  lemma {:induction false} HistoryBegins(r: Run)
    ensures r.Hist()[0] == r.Beginning()
  {
    if r.Then? {
      HistoryBegins(r.prefix);
      assert r.Hist()[0] == r.prefix.Hist()[0];
    }
  }

  /** `p` is an earlier point of the run. */
  predicate Earlier(p: Run, r: Run) { p == r || (r.Then? && Earlier(p, r.prefix)) }

  lemma {:induction false} EarlierHistory(p: Run, r: Run)
    requires Earlier(p, r)
    ensures |p.Acts()| <= |r.Acts()| && r.Hist()[|p.Acts()|] == p.Last()
  {
    if p != r {
      EarlierHistory(p, r.prefix);
      assert r.Hist()[|p.Acts()|] == r.prefix.Hist()[|p.Acts()|];
    }
  }

  /** A run from a sound beginning, over releases that do not collide. */
  ghost predicate SoundFrom(e: Env, r: Run) {
    IsRun(e, r) && Sound(e, r.Beginning()) && NoCollisions(e, r.Last().checked)
  }

  lemma SoundFromIsSoundRun(e: Env, r: Run)
    requires SoundFrom(e, r)
    ensures SoundRun(e, r.Hist(), r.Acts())
  {
    RunIsTrace(e, r);
    HistoryBegins(r);
  }

  lemma {:induction false} PreparingActs(a: Run, b: Run, dest: Option<string>)
    requires Preparing(a, b, dest)
    ensures a.Acts() <= b.Acts() && a.Hist() <= b.Hist()
    ensures forall i | |a.Acts()| <= i < |b.Acts()| :: BeforePublish(b.Acts()[i], dest)
  {
    if a != b {
      PreparingActs(a, b.prefix, dest);
    }
  }

  lemma {:induction false} QuietlyActs(a: Run, b: Run)
    requires Quietly(a, b)
    ensures a.Acts() <= b.Acts() && a.Hist() <= b.Hist()
    ensures forall i | |a.Acts()| <= i < |b.Acts()| :: AfterPublish(b.Acts()[i])
  {
    if a != b {
      QuietlyActs(a, b.prefix);
    }
  }

  lemma PublishingExtends(a: Run, p: Run, b: Run, dest: Option<string>)
    requires p.Then? && Preparing(a, p.prefix, dest) && Quietly(p, b)
    ensures a.Acts() <= p.prefix.Acts() && p.prefix.Acts() + [p.action] <= b.Acts()
    ensures a.Acts() <= b.Acts() && a.Hist() <= b.Hist()
    ensures |a.Acts()| <= |p.prefix.Acts()| < |b.Acts()|
  {
    PreparingActs(a, p.prefix, dest);
    QuietlyActs(p, b);
    assert p.prefix.Hist() <= p.Hist();
  }

  lemma PublishingActs(e: Env, a: Run, p: Run, b: Run, dest: Option<string>)
    requires p.Then? && p.action.Publish? && Preparing(a, p.prefix, dest) && Quietly(p, b)
    requires dest == Some(e.dir(p.action.rel))
    ensures a.Acts() <= b.Acts() && |a.Acts()| <= |p.prefix.Acts()| < |b.Acts()|
    ensures OneRefresh(e, b.Acts()[|a.Acts()|..], |p.prefix.Acts()| - |a.Acts()|, dest)
  {
    PublishingExtends(a, p, b, dest);
    PreparingActs(a, p.prefix, dest);
    QuietlyActs(p, b);
    PublishingShape(e, |a.Acts()|, p.prefix.Acts(), p.action, b.Acts(), dest);
  }

  lemma PublishingShape(e: Env, start: nat, prepared: seq<Action>, publish: Action, all: seq<Action>,
                        dest: Option<string>)
    requires start <= |prepared| && prepared + [publish] <= all
    requires publish.Publish? && dest == Some(e.dir(publish.rel))
    requires forall i | start <= i < |prepared| :: BeforePublish(prepared[i], dest)
    requires forall i | |prepared| < i < |all| :: AfterPublish(all[i])
    ensures OneRefresh(e, all[start..], |prepared| - start, dest)
  {
    assert all[|prepared|] == (prepared + [publish])[|prepared|];
    forall i | start <= i < |prepared|
      ensures BeforePublish(all[i], dest)
    {
      assert all[i] == (prepared + [publish])[i] == prepared[i];
    }
  }

  /** The actions added by one Refresh have the shape the crash theorem asks for. */
  lemma RefreshedActs(e: Env, a: Run, b: Run, dest: Option<string>, published: Option<Run>) returns (m: nat)
    requires IsRun(e, b) && Refreshed(a, b, dest, published)
    requires published.Some? ==> dest == Some(e.dir(published.value.action.rel))
    ensures a.Acts() <= b.Acts() && a.Hist() <= b.Hist()
    ensures OneRefresh(e, b.Acts()[|a.Acts()|..], m, dest)
  {
    match published {
      case None =>
        PreparingActs(a, b, dest);
        m := |b.Acts()| - |a.Acts()|;
      case Some(p) =>
        PublishingExtends(a, p, b, dest);
        PublishingActs(e, a, p, b, dest);
        m := |p.prefix.Acts()| - |a.Acts()|;
    }
  }

  /** Crash safety of the last part of a run, from its n-th state on. */
  lemma SuffixIsCrashSafe(e: Env, hist: seq<Sys>, acts: seq<Action>, n: nat, m: nat, k: nat, first: Release,
                          dest: Option<string>)
    requires IsTrace(e, hist, acts) && n <= k <= |acts| && OneRefresh(e, acts[n..], m, dest)
    requires Sound(e, hist[n]) && NoCollisions(e, hist[|acts|].checked)
    requires hist[n].current == Some(first) && hist[n].disk.state == Recorded(first)
    requires Settled(hist[n]) && e.dir(first) !in hist[n].lost
    requires dest != Some(e.dir(first))
    ensures Adopted(e, hist[k].disk).Some?
    ensures Adopted(e, hist[k].disk) == Some(first) || Adopted(e, hist[k].disk) == hist[k].current
  {
    TraceSuffix(e, hist, acts, n);
    assert hist[n..][0] == hist[n] && hist[n..][|acts[n..]|] == hist[|acts|] && hist[n..][k - n] == hist[k];
    GenerationChangeIsCrashSafe(e, hist[n..], acts[n..], m, k - n, first, dest);
  }

  /** Crash safety of a generation change, for every state a Refresh passed through. */
  lemma RefreshIsCrashSafe(e: Env, a: Run, b: Run, dest: Option<string>, published: Option<Run>, k: nat, first: Release)
    requires IsRun(e, b) && Refreshed(a, b, dest, published)
    requires published.Some? ==> dest == Some(e.dir(published.value.action.rel))
    requires Sound(e, a.Last()) && NoCollisions(e, b.Last().checked)
    requires a.Last().current == Some(first) && a.Last().disk.state == Recorded(first)
    requires Settled(a.Last()) && e.dir(first) !in a.Last().lost
    requires dest != Some(e.dir(first)) && |a.Acts()| <= k < |b.Hist()|
    ensures Adopted(e, b.Hist()[k].disk).Some?
    ensures Adopted(e, b.Hist()[k].disk) in {Some(first), b.Hist()[k].current}
  {
    var m := RefreshedActs(e, a, b, dest, published);
    RunIsTrace(e, b);
    assert b.Hist()[|a.Acts()|] == a.Hist()[|a.Acts()|] == a.Last();
    SuffixIsCrashSafe(e, b.Hist(), b.Acts(), |a.Acts()|, m, k, first, dest);
  }
}
