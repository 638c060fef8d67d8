/** Merging a profile's default Paperless tags with those of one scan. */
module Tags {

  datatype Strategy = Unset | Add | Override | Remove | Unrecognised(name: string)

  /** The elements of `ids` at their first occurrences, in order. */
  function FirstOccurrences(ids: seq<int>): seq<int> {
    if ids == [] then [] else
    var front := FirstOccurrences(ids[..|ids| - 1]);
    if ids[|ids| - 1] in ids[..|ids| - 1] then front else front + [ids[|ids| - 1]]
  }

  function Without(ids: seq<int>, exclude: seq<int>): seq<int> {
    if ids == [] then [] else
    var front := Without(ids[..|ids| - 1], exclude);
    if ids[|ids| - 1] in exclude then front else front + [ids[|ids| - 1]]
  }

  lemma FirstOccurrencesSnoc(ids: seq<int>, x: int)
    ensures FirstOccurrences(ids + [x]) == if x in ids then FirstOccurrences(ids) else FirstOccurrences(ids) + [x]
  {
    assert (ids + [x])[..|ids + [x]| - 1] == ids;
  }

  lemma WithoutSnoc(ids: seq<int>, x: int, exclude: seq<int>)
    ensures Without(ids + [x], exclude) == if x in exclude then Without(ids, exclude) else Without(ids, exclude) + [x]
  {
    assert (ids + [x])[..|ids + [x]| - 1] == ids;
  }

  method Dedup(ids: seq<int>) returns (out: seq<int>)
    ensures out == FirstOccurrences(ids)
  {
    var seen: set<int> := {};
    out := [];
    for i := 0 to |ids|
      invariant forall x :: x in seen <==> x in ids[..i]
      invariant out == FirstOccurrences(ids[..i])
    {
      assert ids[..i + 1] == ids[..i] + [ids[i]];
      FirstOccurrencesSnoc(ids[..i], ids[i]);
      if ids[i] in seen {
        continue;
      }
      seen := seen + {ids[i]};
      out := out + [ids[i]];
    }
    assert ids[..|ids|] == ids;
  }

  method RemoveTags(defaults: seq<int>, exclude: seq<int>) returns (out: seq<int>)
    ensures out == Without(defaults, exclude)
  {
    var excluded: set<int> := {};
    for i := 0 to |exclude|
      invariant forall x :: x in excluded <==> x in exclude[..i]
    {
      excluded := excluded + {exclude[i]};
    }
    assert exclude[..|exclude|] == exclude;
    out := [];
    for i := 0 to |defaults|
      invariant out == Without(defaults[..i], exclude)
    {
      assert defaults[..i + 1] == defaults[..i] + [defaults[i]];
      WithoutSnoc(defaults[..i], defaults[i], exclude);
      if defaults[i] in excluded {
        continue;
      }
      out := out + [defaults[i]];
    }
    assert defaults[..|defaults|] == defaults;
  }

  function Merged(defaults: seq<int>, profile: Strategy, caller: seq<int>, override: Strategy): seq<int> {
    if caller == [] then defaults else
    match if override.Unset? then profile else override
    case Override => FirstOccurrences(caller)
    case Remove => Without(defaults, caller)
    case _ => FirstOccurrences(defaults + caller)
  }

  method Merge(defaults: seq<int>, profile: Strategy, caller: seq<int>, override: Strategy) returns (out: seq<int>)
    ensures out == Merged(defaults, profile, caller, override)
  {
    if caller == [] {
      return defaults;
    }
    var effective := profile;
    if !override.Unset? {
      effective := override;
    }
    match effective {
      case Override => out := Dedup(caller);
      case Remove => out := RemoveTags(defaults, caller);
      case _ => out := Dedup(defaults + caller);
    }
  }

  // ----- What the two list operations mean -----

  ghost predicate Increasing(at: seq<nat>, bound: nat) {
    && (forall i, j | 0 <= i < j < |at| :: at[i] < at[j])
    && forall i | 0 <= i < |at| :: at[i] < bound
  }

  /** `out` is what stands at the positions `at` of `ids`. */
  ghost predicate PickedAt(ids: seq<int>, at: seq<nat>, out: seq<int>) {
    Increasing(at, |ids|) && |out| == |at| && forall i | 0 <= i < |at| :: out[i] == ids[at[i]]
  }

  lemma PickLater(ids: seq<int>, at: seq<nat>, out: seq<int>, x: int)
    requires PickedAt(ids, at, out)
    ensures PickedAt(ids + [x], at, out) && PickedAt(ids + [x], at + [|ids|], out + [x])
    ensures |ids| !in at
  {}

  /** Dedup keeps exactly the first occurrences, in their order. */
  lemma {:induction false} DedupKeepsFirstOccurrences(ids: seq<int>) returns (at: seq<nat>)
    ensures PickedAt(ids, at, FirstOccurrences(ids))
    ensures forall p | 0 <= p < |ids| :: p in at <==> ids[p] !in ids[..p]
  {
    if ids == [] {
      at := [];
    } else {
      var n := |ids| - 1;
      var rest := ids[..n];
      at := DedupKeepsFirstOccurrences(rest);
      assert ids == rest + [ids[n]];
      PickLater(rest, at, FirstOccurrences(rest), ids[n]);
      FirstOccurrencesSnoc(rest, ids[n]);
      forall p | 0 <= p < n
        ensures p in at <==> ids[p] !in ids[..p]
      {
        assert rest[..p] == ids[..p] && rest[p] == ids[p];
      }
      if ids[n] !in rest {
        at := at + [n];
      }
    }
  }

  lemma {:induction false} DedupSameElements(ids: seq<int>)
    ensures forall x :: x in FirstOccurrences(ids) <==> x in ids
  {
    if ids != [] {
      DedupSameElements(ids[..|ids| - 1]);
      assert ids == ids[..|ids| - 1] + [ids[|ids| - 1]];
    }
  }

  /** Merging in two rounds is merging once. */
  lemma {:induction false} DedupInRounds(a: seq<int>, b: seq<int>)
    ensures FirstOccurrences(FirstOccurrences(a) + b) == FirstOccurrences(a + b)
    decreases |b|
  {
    var d := FirstOccurrences(a);
    if b == [] {
      assert d + b == d && a + b == a;
      DedupIdempotent(a);
    } else {
      var n := |b| - 1;
      DedupInRounds(a, b[..n]);
      DedupSameElements(a);
      assert d + b == (d + b[..n]) + [b[n]] && a + b == (a + b[..n]) + [b[n]];
      FirstOccurrencesSnoc(d + b[..n], b[n]);
      FirstOccurrencesSnoc(a + b[..n], b[n]);
      assert b[n] in d <==> b[n] in a;
    }
  }

  lemma {:induction false} DedupIdempotent(a: seq<int>)
    ensures FirstOccurrences(FirstOccurrences(a)) == FirstOccurrences(a)
  {
    if a != [] {
      var n := |a| - 1;
      DedupIdempotent(a[..n]);
      DedupSameElements(a[..n]);
      FirstOccurrencesSnoc(FirstOccurrences(a[..n]), a[n]);
    }
  }

  /** Add-merging two non-empty caller lists one after the other gives what merging
      their concatenation gives. */
  lemma AddMergesCompose(defaults: seq<int>, one: seq<int>, two: seq<int>, profile: Strategy)
    requires one != [] && two != []
    ensures Merged(Merged(defaults, profile, one, Add), profile, two, Add) == Merged(defaults, profile, one + two, Add)
  {
    DedupInRounds(defaults + one, two);
    assert defaults + one + two == defaults + (one + two);
  }

  /** Removing keeps exactly the defaults outside the caller's list, in order. */
  lemma {:induction false} RemoveKeepsTheRest(defaults: seq<int>, caller: seq<int>) returns (at: seq<nat>)
    ensures PickedAt(defaults, at, Without(defaults, caller))
    ensures forall p | 0 <= p < |defaults| :: p in at <==> defaults[p] !in caller
  {
    if defaults == [] {
      at := [];
    } else {
      var n := |defaults| - 1;
      at := RemoveKeepsTheRest(defaults[..n], caller);
      assert defaults == defaults[..n] + [defaults[n]];
      PickLater(defaults[..n], at, Without(defaults[..n], caller), defaults[n]);
      WithoutSnoc(defaults[..n], defaults[n], caller);
      if defaults[n] !in caller {
        at := at + [n];
      }
    }
  }

  /** The strategy in force: the caller's override, or the profile's when there is none. */
  function InForce(profile: Strategy, override: Strategy): Strategy {
    if override == Unset then profile else override
  }

  /** Which tags a merge leaves, whatever the order: the defaults when the caller gives
      none; else the caller's alone, the defaults without the caller's, or both. */
  lemma MergedMembers(defaults: seq<int>, profile: Strategy, caller: seq<int>, override: Strategy, tag: int)
    ensures var merged := Merged(defaults, profile, caller, override);
            && (caller == [] ==> merged == defaults)
            && (caller != [] ==>
                  (tag in merged <==>
                     if InForce(profile, override) == Override then tag in caller
                     else if InForce(profile, override) == Remove then tag in defaults && tag !in caller
                     else tag in defaults || tag in caller))
  {
    DedupSameElements(caller);
    DedupSameElements(defaults + caller);
    var at := RemoveKeepsTheRest(defaults, caller);
    var rest := Without(defaults, caller);
    if tag in rest {
      var i :| 0 <= i < |rest| && rest[i] == tag;
      assert at[i] in at;
    }
    if tag in defaults && tag !in caller {
      var p :| 0 <= p < |defaults| && defaults[p] == tag;
      assert p in at;
      var i :| 0 <= i < |at| && at[i] == p;
      assert rest[i] == tag;
    }
  }

  /** In which order: a merge with an override or an addition is the first occurrences of
      the caller's list, or of the defaults followed by it; a removal keeps the defaults'. */
  lemma MergedOrder(defaults: seq<int>, profile: Strategy, caller: seq<int>, override: Strategy) returns (at: seq<nat>)
    requires caller != []
    ensures var merged := Merged(defaults, profile, caller, override);
            var from := match InForce(profile, override)
                        case Override => caller
                        case Remove => defaults
                        case _ => defaults + caller;
            && PickedAt(from, at, merged)
            && forall p | 0 <= p < |from| ::
                 p in at <==> if InForce(profile, override) == Remove then from[p] !in caller else from[p] !in from[..p]
  {
    match InForce(profile, override)
    case Override => at := DedupKeepsFirstOccurrences(caller);
    case Remove => at := RemoveKeepsTheRest(defaults, caller);
    case _ => at := DedupKeepsFirstOccurrences(defaults + caller);
  }
}
