/** Strings as the programs handle them: sequences of code points, with the few
    library operations the modelled code calls, and the order `sort.Strings` uses. */
module Text {
  datatype Option<+T> = None | Some(value: T)

  datatype Result<+T, +E> = Ok(value: T) | Err(error: E)

  /** File contents and message bodies. */
  type Bytes = string

  // ----- Characters -----

  /** unicode.IsSpace. */
  predicate IsSpace(c: char) {
    || '\t' <= c <= '\r'
    || c in {' ', '\U{85}', '\U{A0}', '\U{1680}', '\U{2028}', '\U{2029}', '\U{202F}', '\U{205F}', '\U{3000}'}
    || '\U{2000}' <= c <= '\U{200A}'
  }

  predicate IsDigit(c: char) { '0' <= c <= '9' }

  predicate IsLowerHexDigit(c: char) { IsDigit(c) || 'a' <= c <= 'f' }

  predicate IsHexDigit(c: char) { IsLowerHexDigit(c) || 'A' <= c <= 'F' }

  function LowerChar(c: char): char {
    if 'A' <= c <= 'Z' then (c as int + 32) as char else c
  }

  /** ASCII lower-casing, which is all strings.ToLower and strings.EqualFold do
      when one side is made of hexadecimal digits. */
  function Lower(s: string): (r: string)
    ensures |r| == |s|
  {
    seq(|s|, i requires 0 <= i < |s| => LowerChar(s[i]))
  }

  predicate EqualFold(a: string, b: string) { Lower(a) == Lower(b) }

  /** Hexadecimal text of a SHA-256 digest. */
  predicate IsDigest(s: string) { |s| == 64 && forall c | c in s :: IsHexDigit(c) }

  predicate IsLowerDigest(s: string) { |s| == 64 && forall c | c in s :: IsLowerHexDigit(c) }

  lemma LowerOfDigest(s: string)
    requires IsDigest(s)
    ensures IsLowerDigest(Lower(s))
  {
    forall c | c in Lower(s) ensures IsLowerHexDigit(c) {
      var i :| 0 <= i < |s| && c == Lower(s)[i];
      assert s[i] in s;
    }
  }

  lemma LowerIsIdentity(s: string)
    requires IsLowerDigest(s)
    ensures Lower(s) == s
  {
    forall i | 0 <= i < |s| ensures LowerChar(s[i]) == s[i] {
      assert s[i] in s;
    }
  }

  // ----- Trimming and cutting -----

  predicate IsBlank(s: string) { forall c | c in s :: IsSpace(c) }

  function TrimLeft(s: string): string {
    if s != "" && IsSpace(s[0]) then TrimLeft(s[1..]) else s
  }

  function TrimRight(s: string): string {
    if s != "" && IsSpace(s[|s| - 1]) then TrimRight(s[..|s| - 1]) else s
  }

  /** strings.TrimSpace. */
  function TrimSpace(s: string): string { TrimRight(TrimLeft(s)) }

  /** strings.TrimPrefix. */
  function TrimPrefix(s: string, p: string): string {
    if p <= s then s[|p|..] else s
  }

  /** Position of the first `c`, or the length when there is none. */
  function IndexOf(s: string, c: char): (i: nat)
    ensures i <= |s|
    ensures c !in s[..i]
    ensures i < |s| ==> s[i] == c
  {
    if s == "" || s[0] == c then 0 else
    var i := 1 + IndexOf(s[1..], c);
    assert s[..i] == [s[0]] + s[1..][..i - 1];
    i
  }

  lemma IndexOfFirst(p: string, c: char, q: string)
    requires c !in p
    ensures IndexOf(p + [c] + q, c) == |p|
  {
    var s := p + [c] + q;
    var i := IndexOf(s, c);
    assert s[|p|] == c && c in s;
    assert forall k | 0 <= k < |p| :: s[k] == p[k] && p[k] in p;
    assert forall k | 0 <= k < i :: s[k] == s[..i][k] && s[..i][k] in s[..i];
  }

  lemma IndexOfNone(s: string, c: char)
    requires c !in s
    ensures IndexOf(s, c) == |s|
  {
    assert forall k | 0 <= k < |s| :: s[k] in s;
  }

  /** strings.Split by a single separator character. */
  function Split(s: string, sep: char): (parts: seq<string>)
    ensures |parts| >= 1
    ensures forall p | p in parts :: sep !in p
    decreases |s|
  {
    var i := IndexOf(s, sep);
    if i == |s| then
      assert s[..i] == s;
      [s]
    else [s[..i]] + Split(s[i + 1..], sep)
  }

  /** strings.Join by a single separator character. */
  function Join(parts: seq<string>, sep: char): string {
    if |parts| == 0 then ""
    else if |parts| == 1 then parts[0]
    else parts[0] + [sep] + Join(parts[1..], sep)
  }

  lemma SplitStep(part: string, sep: char, rest: string)
    requires sep !in part
    ensures Split(part + [sep] + rest, sep) == [part] + Split(rest, sep)
  {
    var whole := part + [sep] + rest;
    IndexOfFirst(part, sep, rest);
    assert whole[..|part|] == part && whole[|part| + 1..] == rest;
  }

  lemma {:induction false} SplitOfJoin(parts: seq<string>, sep: char)
    requires |parts| >= 1
    requires forall p | p in parts :: sep !in p
    ensures Split(Join(parts, sep), sep) == parts
  {
    if |parts| == 1 {
      IndexOfNone(parts[0], sep);
    } else {
      SplitStep(parts[0], sep, Join(parts[1..], sep));
      SplitOfJoin(parts[1..], sep);
      assert parts == [parts[0]] + parts[1..];
    }
  }

  lemma {:induction false} TrimLeftStops(pad: string, s: string)
    requires IsBlank(pad) && (s == "" || !IsSpace(s[0]))
    ensures TrimLeft(pad + s) == s
  {
    if pad == "" {
      assert pad + s == s;
    } else {
      assert (pad + s)[1..] == pad[1..] + s;
      assert IsSpace(pad[0]);
      TrimLeftStops(pad[1..], s);
    }
  }

  lemma {:induction false} TrimRightStops(s: string, pad: string)
    requires IsBlank(pad) && (s == "" || !IsSpace(s[|s| - 1]))
    ensures TrimRight(s + pad) == s
  {
    if pad == "" {
      assert s + pad == s;
    } else {
      assert (s + pad)[..|s + pad| - 1] == s + pad[..|pad| - 1];
      assert IsSpace(pad[|pad| - 1]);
      TrimRightStops(s, pad[..|pad| - 1]);
    }
  }

  /** Trimming removes exactly the blank padding around a core that neither
      starts nor ends with white space. */
  lemma TrimSpaceOfPadded(left: string, core: string, right: string)
    requires IsBlank(left) && IsBlank(right)
    requires core == "" || (!IsSpace(core[0]) && !IsSpace(core[|core| - 1]))
    ensures TrimSpace(left + core + right) == core
  {
    if core == "" {
      assert IsBlank(left + right);
      TrimLeftStops(left + right, "");
      assert left + core + right == left + right + "";
    } else {
      TrimLeftStops(left, core + right);
      assert left + core + right == left + (core + right);
      TrimRightStops(core, right);
    }
  }

  // ----- Decimal numbers, as %d prints them -----

  function DigitChar(d: nat): char
    requires d < 10
  {
    ('0' as int + d) as char
  }

  function Decimal(n: nat): (s: string)
    ensures s != "" && forall c | c in s :: IsDigit(c)
  {
    if n < 10 then [DigitChar(n)] else Decimal(n / 10) + [DigitChar(n % 10)]
  }

  function DecimalValue(s: string): nat
    requires forall c | c in s :: IsDigit(c)
  {
    if s == "" then 0 else
    assert s[|s| - 1] in s && IsDigit(s[|s| - 1]);
    DecimalValue(s[..|s| - 1]) * 10 + (s[|s| - 1] as int - '0' as int)
  }

  lemma {:induction false} DecimalRoundTrip(n: nat)
    ensures DecimalValue(Decimal(n)) == n
  {
    if n < 10 {
      assert Decimal(n)[..0] == "";
    } else {
      DecimalRoundTrip(n / 10);
      assert Decimal(n)[..|Decimal(n)| - 1] == Decimal(n / 10);
    }
  }

  lemma DecimalInjective(m: nat, n: nat)
    requires Decimal(m) == Decimal(n)
    ensures m == n
  {
    DecimalRoundTrip(m);
    DecimalRoundTrip(n);
  }

  /** A number followed by a non-digit can be read off the front of a string in one way only. */
  lemma DecimalDelimited(m: nat, n: nat, stop: char, p: string, q: string)
    requires !IsDigit(stop)
    requires Decimal(m) + [stop] + p == Decimal(n) + [stop] + q
    ensures m == n && p == q
  {
    var a, b := Decimal(m), Decimal(n);
    assert stop !in a && stop !in b;
    IndexOfFirst(a, stop, p);
    IndexOfFirst(b, stop, q);
    assert a == (a + [stop] + p)[..|a|] == (b + [stop] + q)[..|b|] == b;
    DecimalInjective(m, n);
    assert p == (a + [stop] + p)[|a| + 1..] && q == (b + [stop] + q)[|b| + 1..];
  }

  lemma SameTail(head: string, a: string, b: string)
    requires head + a == head + b
    ensures a == b
  {
    assert a == (head + a)[|head|..] && b == (head + b)[|head|..];
  }

  // ----- The order of sort.Strings -----

  predicate Less(a: string, b: string) {
    b != "" && (a == "" || a[0] < b[0] || (a[0] == b[0] && Less(a[1..], b[1..])))
  }

  lemma LessIrreflexive(a: string)
    ensures !Less(a, a)
  {}

  lemma LessTransitive(a: string, b: string, c: string)
    requires Less(a, b) && Less(b, c)
    ensures Less(a, c)
  {}

  lemma LessTotal(a: string, b: string)
    ensures a == b || Less(a, b) || Less(b, a)
  {
    if a != "" && b != "" && a[0] == b[0] {
      LessTotal(a[1..], b[1..]);
      assert a == [a[0]] + a[1..] && b == [b[0]] + b[1..];
    }
  }

  /** Byte order: a proper beginning comes first, otherwise the first difference decides. */
  lemma {:induction false} LessIff(a: string, b: string)
    ensures Less(a, b) <==> a < b || exists k :: DiffersAt(a, b, k) && a[k] < b[k]
  {
    if a != "" && b != "" && a[0] == b[0] {
      LessIff(a[1..], b[1..]);
      assert a == [a[0]] + a[1..] && b == [b[0]] + b[1..];
      if k :| DiffersAt(a[1..], b[1..], k) && a[1..][k] < b[1..][k] {
        assert a[..k + 1] == [a[0]] + a[1..][..k] && b[..k + 1] == [b[0]] + b[1..][..k];
        assert DiffersAt(a, b, k + 1);
      }
      if k :| DiffersAt(a, b, k) && a[k] < b[k] {
        assert a[1..][..k - 1] == a[..k][1..] && b[1..][..k - 1] == b[..k][1..];
        assert DiffersAt(a[1..], b[1..], k - 1);
      }
      assert a < b <==> a[1..] < b[1..];
    } else if a != "" && b != "" {
      assert DiffersAt(a, b, 0);
    }
  }

  ghost predicate DiffersAt(a: string, b: string, k: int) {
    0 <= k < |a| && k < |b| && a[..k] == b[..k] && a[k] != b[k]
  }

  ghost predicate Ascending(xs: seq<string>) {
    forall i, j | 0 <= i < j < |xs| :: Less(xs[i], xs[j])
  }

  /** `xs` is the ascending list of the names in `ks`, each once. */
  ghost predicate Lists(xs: seq<string>, ks: set<string>) {
    Ascending(xs) && forall x :: x in xs <==> x in ks
  }

  function Insert(x: string, xs: seq<string>): seq<string> {
    if xs == [] then [x]
    else if Less(x, xs[0]) then [x] + xs
    else [xs[0]] + Insert(x, xs[1..])
  }

  lemma {:induction false} InsertLists(x: string, xs: seq<string>, ks: set<string>)
    requires Lists(xs, ks) && x !in ks
    ensures Lists(Insert(x, xs), ks + {x})
  {
    if xs != [] && !Less(x, xs[0]) {
      var rest := xs[1..];
      assert xs == [xs[0]] + rest;
      LessIrreflexive(xs[0]);
      assert xs[0] !in rest;
      InsertLists(x, rest, ks - {xs[0]});
      LessTotal(x, xs[0]);
      assert xs[0] in xs;
      var r := Insert(x, xs);
      forall j | 0 < j < |r| ensures Less(xs[0], r[j]) {
        assert r[j] in Insert(x, rest);
        if r[j] != x {
          assert r[j] in rest;
        }
      }
    } else if xs != [] {
      var r := Insert(x, xs);
      forall j | 0 < j < |r| ensures Less(x, r[j]) {
        if j > 1 {
          LessTransitive(x, xs[0], xs[j - 1]);
        }
      }
    }
  }

  /** The ascending listing of a set of names. */
  ghost function SortedNames(ks: set<string>): (xs: seq<string>)
    ensures Lists(xs, ks)
  {
    if ks == {} then [] else
    var k :| k in ks;
    InsertLists(k, SortedNames(ks - {k}), ks - {k});
    assert ks - {k} + {k} == ks;
    Insert(k, SortedNames(ks - {k}))
  }

  lemma ListsFirst(xs: seq<string>, ys: seq<string>, ks: set<string>)
    requires Lists(xs, ks) && Lists(ys, ks) && xs != []
    ensures ys != [] && ys[0] == xs[0]
  {
    assert xs[0] in xs;
    assert xs[0] in ys;
    assert ys[0] in ys;
    assert ys[0] in xs;
    var i :| 0 <= i < |xs| && xs[i] == ys[0];
    var j :| 0 <= j < |ys| && ys[j] == xs[0];
    if i > 0 && j > 0 {
      LessTransitive(xs[0], ys[0], xs[0]);
      LessIrreflexive(xs[0]);
    }
  }

  /** There is only one ascending listing, whatever order the names were met in. */
  lemma {:induction false} ListsUnique(xs: seq<string>, ys: seq<string>, ks: set<string>)
    requires Lists(xs, ks) && Lists(ys, ks)
    ensures xs == ys
    decreases |xs|
  {
    if xs == [] {
      if ys != [] {
        ListsFirst(ys, xs, ks);
      }
    } else {
      ListsFirst(xs, ys, ks);
      ListsTail(xs, ks);
      ListsTail(ys, ks);
      ListsUnique(xs[1..], ys[1..], ks - {xs[0]});
      assert xs == [xs[0]] + xs[1..] && ys == [ys[0]] + ys[1..];
    }
  }

  lemma ListsTail(xs: seq<string>, ks: set<string>)
    requires Lists(xs, ks) && xs != []
    ensures Lists(xs[1..], ks - {xs[0]})
  {
    LessIrreflexive(xs[0]);
    assert xs == [xs[0]] + xs[1..];
  }

  lemma {:induction false} ListsLength(xs: seq<string>, ks: set<string>)
    requires Lists(xs, ks)
    ensures |xs| == |ks|
    decreases |xs|
  {
    if xs == [] {
      assert ks == {};
    } else {
      ListsTail(xs, ks);
      ListsLength(xs[1..], ks - {xs[0]});
      assert xs[0] in xs;
    }
  }

  /** Collects the keys of a map in whatever order they come and sorts them. */
  method CollectSorted(ks: set<string>) returns (names: seq<string>)
    ensures names == SortedNames(ks)
  {
    names := [];
    var rest := ks;
    while rest != {}
      invariant rest <= ks && Lists(names, ks - rest)
      decreases rest
    {
      var k :| k in rest;
      InsertLists(k, names, ks - rest);
      assert ks - rest + {k} == ks - (rest - {k});
      names := Insert(k, names);
      rest := rest - {k};
    }
    assert ks - rest == ks;
    ListsUnique(names, SortedNames(ks), ks);
  }
}
