/** Warnings about pages: how they are prefixed, collected page by page, and found again
    by their prefix. */
module PageWarnings {
  import opened Text

  function Warn(page: nat, text: string): string { "page " + Decimal(page) + ": " + text }

  function WarnPrefix(page: nat): string { "page " + Decimal(page) + ":" }

  /** The warnings that start with this page's prefix, in order. */
  function WarningsFor(page: nat, all: seq<string>): seq<string> {
    if all == [] then [] else
    var last := all[|all| - 1];
    WarningsFor(page, all[..|all| - 1]) + (if WarnPrefix(page) <= last then [last] else [])
  }

  /** What `said` says about each of `pages`, one after the other. */
  function Gather(said: nat -> seq<string>, pages: seq<nat>): seq<string> {
    if pages == [] then [] else Gather(said, pages[..|pages| - 1]) + said(pages[|pages| - 1])
  }

  /** The pages below n, or those of them that are kept. */
  function Upto(n: nat): seq<nat> { if n == 0 then [] else Upto(n - 1) + [n - 1] }

  function Kept(keep: nat -> bool, n: nat): seq<nat> {
    if n == 0 then [] else Kept(keep, n - 1) + (if keep(n - 1) then [n - 1] else [])
  }

  function CountNot(keep: nat -> bool, n: nat): nat {
    if n == 0 then 0 else CountNot(keep, n - 1) + (if keep(n - 1) then 0 else 1)
  }

  ghost predicate StrictlyIncreasing(s: seq<nat>) {
    forall i, j | 0 <= i < j < |s| :: s[i] < s[j]
  }

  lemma IncreasingSnoc(s: seq<nat>, x: nat)
    requires StrictlyIncreasing(s) && forall e | e in s :: e < x
    ensures StrictlyIncreasing(s + [x])
  {
    assert forall k | 0 <= k < |s| :: s[k] in s;
  }

  lemma {:induction false} KeptInOrder(keep: nat -> bool, n: nat)
    ensures StrictlyIncreasing(Kept(keep, n))
    ensures forall i: nat :: i in Kept(keep, n) <==> i < n && keep(i)
    ensures |Kept(keep, n)| + CountNot(keep, n) == n
  {
    if n > 0 {
      KeptInOrder(keep, n - 1);
      IncreasingSnoc(Kept(keep, n - 1), n - 1);
      if !keep(n - 1) {
        assert Kept(keep, n) == Kept(keep, n - 1);
      }
    }
  }

  lemma {:induction false} UptoInOrder(n: nat)
    ensures StrictlyIncreasing(Upto(n)) && forall i: nat :: i in Upto(n) <==> i < n
  {
    if n > 0 {
      UptoInOrder(n - 1);
      IncreasingSnoc(Upto(n - 1), n - 1);
    }
  }

  lemma GatherSnoc(said: nat -> seq<string>, pages: seq<nat>, i: nat)
    ensures Gather(said, pages + [i]) == Gather(said, pages) + said(i)
  {
    assert (pages + [i])[..|pages + [i]| - 1] == pages;
  }

  // ----- Attribution -----

  lemma WarnSplits(page: nat, text: string)
    ensures Warn(page, text) == "page " + (Decimal(page) + [':'] + (" " + text))
    ensures WarnPrefix(page) <= Warn(page, text)
  {
    assert Warn(page, text) == WarnPrefix(page) + (" " + text);
  }

  lemma PrefixSplits(page: nat, w: string) returns (rest: string)
    requires WarnPrefix(page) <= w
    ensures w == "page " + (Decimal(page) + [':'] + rest)
  {
    rest := w[|WarnPrefix(page)|..];
  }

  /** "page 1:" is not a prefix of a warning about page 10. */
  lemma PrefixIdentifiesPage(i: nat, j: nat, text: string)
    ensures WarnPrefix(i) <= Warn(j, text) <==> i == j
  {
    WarnSplits(j, text);
    if WarnPrefix(i) <= Warn(j, text) {
      var rest := PrefixSplits(i, Warn(j, text));
      SameTail("page ", Decimal(i) + [':'] + rest, Decimal(j) + [':'] + (" " + text));
      DecimalDelimited(i, j, ':', rest, " " + text);
    }
  }

  ghost predicate AllAbout(i: nat, ws: seq<string>) {
    forall w | w in ws :: exists text :: w == Warn(i, text)
  }

  ghost predicate Attributed(said: nat -> seq<string>) { forall i: nat :: AllAbout(i, said(i)) }

  lemma {:induction false} FilterConcat(i: nat, a: seq<string>, b: seq<string>)
    ensures WarningsFor(i, a + b) == WarningsFor(i, a) + WarningsFor(i, b)
  {
    if b == [] {
      assert a + b == a;
    } else {
      var n := |b| - 1;
      assert (a + b)[..|a + b| - 1] == a + b[..n];
      FilterConcat(i, a, b[..n]);
    }
  }

  lemma {:induction false} FilterOwn(i: nat, j: nat, ws: seq<string>)
    requires AllAbout(j, ws)
    ensures WarningsFor(i, ws) == if i == j then ws else []
  {
    if ws != [] {
      var n := |ws| - 1;
      assert ws[n] in ws && forall w | w in ws[..n] :: w in ws;
      var text :| ws[n] == Warn(j, text);
      PrefixIdentifiesPage(i, j, text);
      FilterOwn(i, j, ws[..n]);
      assert ws == ws[..n] + [ws[n]];
    }
  }

  /** The filter gives back exactly what was said about a page, once and in order. */
  lemma {:induction false} FilterGathered(i: nat, said: nat -> seq<string>, pages: seq<nat>)
    requires Attributed(said) && StrictlyIncreasing(pages)
    ensures WarningsFor(i, Gather(said, pages)) == if i in pages then said(i) else []
  {
    if pages != [] {
      var n := |pages| - 1;
      var front := pages[..n];
      assert pages == front + [pages[n]];
      assert pages[n] !in front;
      FilterGathered(i, said, front);
      FilterConcat(i, Gather(said, front), said(pages[n]));
      assert AllAbout(pages[n], said(pages[n]));
      FilterOwn(i, pages[n], said(pages[n]));
    }
  }

  // ----- Collecting in two passes -----

  /** Each page's own share: what is said of it early, and later if it is kept. */
  ghost predicate Shares(early: nat -> seq<string>, late: nat -> seq<string>, keep: nat -> bool,
                         own: nat -> seq<string>)
  {
    forall i: nat :: own(i) == early(i) + if keep(i) then late(i) else []
  }

  /** How often a warning is gathered. */
  ghost function Times(said: nat -> seq<string>, pages: seq<nat>, w: string): nat {
    if pages == [] then 0
    else Times(said, pages[..|pages| - 1], w) + multiset(said(pages[|pages| - 1]))[w]
  }

  lemma CountOfConcat(a: seq<string>, b: seq<string>, w: string)
    ensures multiset(a + b)[w] == multiset(a)[w] + multiset(b)[w]
  {
    assert multiset(a + b) == multiset(a) + multiset(b);
  }

  lemma {:induction false} TimesIsCount(said: nat -> seq<string>, pages: seq<nat>, w: string)
    ensures multiset(Gather(said, pages))[w] == Times(said, pages, w)
    decreases |pages|
  {
    if pages != [] {
      var n := |pages| - 1;
      TimesIsCount(said, pages[..n], w);
      CountOfConcat(Gather(said, pages[..n]), said(pages[n]), w);
    }
  }

  lemma TimesSnoc(said: nat -> seq<string>, pages: seq<nat>, i: nat, w: string)
    ensures Times(said, pages + [i], w) == Times(said, pages, w) + multiset(said(i))[w]
  {
    assert (pages + [i])[..|pages + [i]| - 1] == pages;
  }

  lemma CountOfShare(early: nat -> seq<string>, late: nat -> seq<string>, keep: nat -> bool, own: nat -> seq<string>,
                     i: nat, w: string)
    requires Shares(early, late, keep, own)
    ensures multiset(own(i))[w] == multiset(early(i))[w] + if keep(i) then multiset(late(i))[w] else 0
  {
    CountOfConcat(early(i), if keep(i) then late(i) else [], w);
  }

  lemma TimesKept(said: nat -> seq<string>, keep: nat -> bool, m: nat, w: string)
    ensures Times(said, Kept(keep, m + 1), w) ==
            Times(said, Kept(keep, m), w) + if keep(m) then multiset(said(m))[w] else 0
  {
    if keep(m) {
      TimesSnoc(said, Kept(keep, m), m, w);
    } else {
      assert Kept(keep, m + 1) == Kept(keep, m);
    }
  }

  lemma {:induction false} TimesByPage(early: nat -> seq<string>, late: nat -> seq<string>, keep: nat -> bool,
                                       own: nat -> seq<string>, n: nat, w: string)
    requires Shares(early, late, keep, own)
    ensures Times(own, Upto(n), w) == Times(early, Upto(n), w) + Times(late, Kept(keep, n), w)
    decreases n
  {
    if n > 0 {
      var m: nat := n - 1;
      TimesByPage(early, late, keep, own, m, w);
      TimesSnoc(own, Upto(m), m, w);
      TimesSnoc(early, Upto(m), m, w);
      TimesKept(late, keep, m, w);
      CountOfShare(early, late, keep, own, m, w);
    }
  }

  /** Collecting early warnings of all pages and late ones of the kept pages loses and
      repeats nothing: it is, up to order, each page's own share. */
  lemma GatherByPage(early: nat -> seq<string>, late: nat -> seq<string>, keep: nat -> bool, own: nat -> seq<string>,
                     n: nat)
    requires Shares(early, late, keep, own)
    ensures multiset(Gather(own, Upto(n))) == multiset(Gather(early, Upto(n)) + Gather(late, Kept(keep, n)))
  {
    var a, b, c := Gather(own, Upto(n)), Gather(early, Upto(n)), Gather(late, Kept(keep, n));
    forall w
      ensures multiset(a)[w] == multiset(b + c)[w]
    {
      TimesByPage(early, late, keep, own, n, w);
      TimesIsCount(own, Upto(n), w);
      TimesIsCount(early, Upto(n), w);
      TimesIsCount(late, Kept(keep, n), w);
      CountOfConcat(b, c, w);
    }
    SameCounts(a, b + c);
  }

  lemma SameCounts(a: seq<string>, b: seq<string>)
    requires forall w :: multiset(a)[w] == multiset(b)[w]
    ensures multiset(a) == multiset(b)
  {}
}
