/** What a firmware release is, and the directory name that identifies its bytes. */
module Releases {
  import opened Text

  type Digest = s: string | IsLowerDigest(s) witness seq(64, (i: int) => '0')

  /** SHA-256 printed in lower-case hexadecimal; nothing else is assumed about it. */
  type Hasher = Bytes -> Digest

  const MANIFEST_NAME := "manifest.json"
  const CHECKSUMS_NAME := "SHA256SUMS"
  const STATE_FILE := "state.json"

  datatype Release = Release(
    tag: string,
    files: seq<string>,
    retrievedAt: int,
    sums: map<string, string>,
    releaseURL: string)

  predicate ValidAssetName(name: string) {
    && name != "" && name != "." && name != ".."
    && '/' !in name && '\\' !in name
    && !("." <= name)
  }

  predicate ValidTag(tag: string) {
    && tag != "" && tag != "." && tag != ".." && tag != STATE_FILE
    && '/' !in tag && '\\' !in tag
    && !("." <= tag)
  }

  /** Asset names are one path segment that is not hidden. */
  lemma ValidAssetNameIff(name: string)
    ensures ValidAssetName(name) <==> name != "" && name[0] != '.' && forall c | c in name :: c != '/' && c != '\\'
  {}

  /** Tags too, and the state file's name is taken. */
  lemma ValidTagIff(tag: string)
    ensures ValidTag(tag) <==>
              tag != "" && tag[0] != '.' && tag != "state.json" && forall c | c in tag :: c != '/' && c != '\\'
  {}

  // ----- The name of a generation -----

  function Listing(names: seq<string>, sums: map<string, string>): string
    requires forall n | n in names :: n in sums
  {
    if names == [] then ""
    else names[0] + ":" + sums[names[0]] + "\n" + Listing(names[1..], sums)
  }

  /** The text Dir hashes: one line per file, in ascending order of the names. */
  ghost function CanonicalText(sums: map<string, string>): string {
    Listing(SortedNames(sums.Keys), sums)
  }

  ghost function Dir(sha: Hasher, r: Release): string {
    r.tag + "-" + sha(CanonicalText(r.sums))[..12]
  }

  method WriteListing(names: seq<string>, sums: map<string, string>) returns (text: string)
    requires forall n | n in names :: n in sums
    ensures text == Listing(names, sums)
  {
    text := "";
    for i := 0 to |names|
      invariant text + Listing(names[i..], sums) == Listing(names, sums)
    {
      ghost var rest := Listing(names[i + 1..], sums);
      var line := names[i] + ":" + sums[names[i]] + "\n";
      assert names[i..][1..] == names[i + 1..];
      assert text + (line + rest) == (text + line) + rest;
      text := text + line;
    }
    assert text + "" == text;
  }

  /** Release.Dir: the names come out of the map in any order and are sorted first. */
  method DirName(sha: Hasher, r: Release) returns (dir: string)
    ensures dir == Dir(sha, r)
  {
    var names := CollectSorted(r.sums.Keys);
    var text := WriteListing(names, r.sums);
    dir := r.tag + "-" + sha(text)[..12];
  }

  /** Sums as parseChecksums produces them. */
  ghost predicate CleanSums(sums: map<string, string>) {
    forall n | n in sums :: ValidAssetName(n) && '\n' !in n && IsLowerDigest(sums[n])
  }

  /** A release as Refresh builds it. */
  ghost predicate WellFormed(r: Release) {
    && ValidTag(r.tag)
    && CleanSums(r.sums)
    && Lists(r.files, r.sums.Keys)
    && MANIFEST_NAME in r.files
  }

  lemma ListingStep(names: seq<string>, sums: map<string, string>)
    requires names != [] && forall n | n in names :: n in sums && '\n' !in n && '\n' !in sums[n]
    ensures Split(Listing(names, sums), '\n') ==
            [names[0] + ":" + sums[names[0]]] + Split(Listing(names[1..], sums), '\n')
  {
    assert names[0] in names;
    SplitStep(names[0] + ":" + sums[names[0]], '\n', Listing(names[1..], sums));
  }

  /** The hashed text, line by line: "name:digest" in ascending order of the names. */
  lemma {:induction false} ListingLines(names: seq<string>, sums: map<string, string>)
    requires forall n | n in names :: n in sums && '\n' !in n && '\n' !in sums[n]
    ensures var lines := Split(Listing(names, sums), '\n');
            && |lines| == |names| + 1 && lines[|names|] == ""
            && forall k | 0 <= k < |names| :: lines[k] == names[k] + ":" + sums[names[k]]
  {
    if names == [] {
      IndexOfNone("", '\n');
    } else {
      ListingLines(names[1..], sums);
      ListingStep(names, sums);
    }
  }

  lemma LineSplits(x: string, d: string, y: string, e: string)
    requires x + ":" + d == y + ":" + e && |d| == |e|
    ensures x == y && d == e
  {
    assert x == (x + ":" + d)[..|x|] && y == (y + ":" + e)[..|y|];
    assert d == (x + ":" + d)[|x| + 1..] && e == (y + ":" + e)[|y| + 1..];
  }

  lemma LinesOfSums(names: seq<string>, sums: map<string, string>)
    requires forall x | x in names :: x in sums && '\n' !in x && IsLowerDigest(sums[x])
    ensures var lines := Split(Listing(names, sums), '\n');
            |lines| == |names| + 1 && forall k | 0 <= k < |names| :: lines[k] == names[k] + ":" + sums[names[k]]
  {
    ListingLines(names, sums);
  }

  lemma ListingInjective(xs: seq<string>, m: map<string, string>, ys: seq<string>, n: map<string, string>)
    requires forall x | x in xs :: x in m && '\n' !in x && IsLowerDigest(m[x])
    requires forall y | y in ys :: y in n && '\n' !in y && IsLowerDigest(n[y])
    requires Listing(xs, m) == Listing(ys, n)
    ensures xs == ys && forall x | x in xs :: m[x] == n[x]
  {
    LinesOfSums(xs, m);
    LinesOfSums(ys, n);
    forall k | 0 <= k < |xs|
      ensures xs[k] == ys[k] && m[xs[k]] == n[xs[k]]
    {
      assert xs[k] in xs && ys[k] in ys;
      LineSplits(xs[k], m[xs[k]], ys[k], n[ys[k]]);
    }
  }

  /** Two releases with different checksums hash different texts. */
  lemma CanonicalTextInjective(m: map<string, string>, n: map<string, string>)
    requires CleanSums(m) && CleanSums(n)
    requires CanonicalText(m) == CanonicalText(n)
    ensures m == n
  {
    var xs, ys := SortedNames(m.Keys), SortedNames(n.Keys);
    ListingInjective(xs, m, ys, n);
    assert forall k :: k in m <==> k in xs;
    assert forall k :: k in n <==> k in ys;
  }

  /** A generation directory determines its tag, and the hash prefix of its checksums. */
  lemma EqualDirEqualTag(sha: Hasher, r: Release, s: Release)
    requires Dir(sha, r) == Dir(sha, s)
    ensures r.tag == s.tag
    ensures sha(CanonicalText(r.sums))[..12] == sha(CanonicalText(s.sums))[..12]
  {
    var p, q := sha(CanonicalText(r.sums))[..12], sha(CanonicalText(s.sums))[..12];
    assert r.tag == Dir(sha, r)[..|Dir(sha, r)| - 13] == s.tag;
    assert p == Dir(sha, r)[|Dir(sha, r)| - 12..] == q;
  }

  /** A generation directory is itself acceptable to OpenAt, which validates it like a tag. */
  lemma DirIsValidTag(sha: Hasher, r: Release)
    requires ValidTag(r.tag)
    ensures ValidTag(Dir(sha, r))
  {
    var d := Dir(sha, r);
    var p := sha(CanonicalText(r.sums))[..12];
    assert forall c | c in p :: IsLowerHexDigit(c) by {
      assert forall c | c in p :: c in sha(CanonicalText(r.sums));
    }
    assert d[0] == r.tag[0];
    assert d[|r.tag|] == '-' && |d| == |r.tag| + 13;
  }

  /** A generation is named by its tag, a hyphen and twelve digits of the hash. */
  lemma DirIsTagAndHash(sha: Hasher, r: Release)
    ensures |Dir(sha, r)| == |r.tag| + 13 && r.tag <= Dir(sha, r) && Dir(sha, r)[|r.tag|] == '-'
    ensures Dir(sha, r)[|r.tag| + 1..] <= sha(CanonicalText(r.sums))
  {
    assert Dir(sha, r)[|r.tag| + 1..] == sha(CanonicalText(r.sums))[..12];
  }
}
