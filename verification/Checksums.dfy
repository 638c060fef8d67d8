/** parseChecksums: the sha256sum listing that drives every download. */
module Checksums {
  import opened Text
  import opened Releases

  datatype ParseError =
    | Malformed(line: string)
    | NotADigest(line: string)
    | BadName(name: string)
    | Duplicate(name: string)
    | NoEntries

  datatype Entry = Entry(name: string, digest: string)

  /** What one trimmed, non-empty line says. */
  function ReadEntry(line: string): Result<Entry, ParseError> {
    var i := IndexOf(line, ' ');
    if i == |line| then Err(Malformed(line))
    else if !IsDigest(line[..i]) then Err(NotADigest(line))
    else
      var name := TrimPrefix(TrimPrefix(TrimSpace(line[i + 1..]), "*"), "./");
      if !ValidAssetName(name) then Err(BadName(name))
      else Ok(Entry(name, Lower(line[..i])))
  }

  function ParseLines(lines: seq<string>, sums: map<string, string>): Result<map<string, string>, ParseError> {
    if lines == [] then Ok(sums) else
    var line := TrimSpace(lines[0]);
    if line == "" then ParseLines(lines[1..], sums) else
    match ReadEntry(line)
    case Err(e) => Err(e)
    case Ok(entry) =>
      if entry.name in sums then Err(Duplicate(entry.name))
      else ParseLines(lines[1..], sums[entry.name := entry.digest])
  }

  function Parse(text: string): Result<map<string, string>, ParseError> {
    match ParseLines(Split(text, '\n'), map[])
    case Err(e) => Err(e)
    case Ok(sums) => if sums == map[] then Err(NoEntries) else Ok(sums)
  }

  method ParseChecksums(text: string) returns (r: Result<(map<string, string>, seq<string>), ParseError>)
    ensures Parse(text).Ok? <==> r.Ok?
    ensures r.Ok? ==> r.value == (Parse(text).value, SortedNames(Parse(text).value.Keys))
    ensures r.Err? ==> Parse(text) == Err(r.error)
  {
    var lines := Split(text, '\n');
    var sums: map<string, string> := map[];
    for i := 0 to |lines|
      invariant ParseLines(lines[i..], sums) == ParseLines(lines, map[])
    {
      assert lines[i..][0] == lines[i] && lines[i..][1..] == lines[i + 1..];
      var line := TrimSpace(lines[i]);
      if line == "" {
        continue;
      }
      var at := IndexOf(line, ' ');
      if at == |line| {
        return Err(Malformed(line));
      }
      var digest, rest := line[..at], line[at + 1..];
      if !IsDigest(digest) {
        return Err(NotADigest(line));
      }
      var name := TrimPrefix(TrimPrefix(TrimSpace(rest), "*"), "./");
      if !ValidAssetName(name) {
        return Err(BadName(name));
      }
      if name in sums {
        return Err(Duplicate(name));
      }
      sums := sums[name := Lower(digest)];
    }
    if sums == map[] {
      return Err(NoEntries);
    }
    var names := CollectSorted(sums.Keys);
    return Ok((sums, names));
  }

  // ----- Printing, the inverse -----

  /** A line of a checksum file: blank, or a digest in any letter case, a space, what leads
      in to the name (a space or the mark of binary mode, with or without "./"), and the
      name. */
  datatype Line = Blank(pad: string) | Sum(digest: string, lead: string, name: string) {
    function Print(): string {
      match this
      case Blank(pad) => pad
      case Sum(digest, lead, name) => digest + " " + (lead + name)
    }
  }

  /** Names after a bare space must not look like one of the other leads. */
  predicate Leads(lead: string, name: string) {
    && (lead == " " || lead == "*" || lead == " ./" || lead == "*./")
    && (lead == " " && name != "" ==> name[0] != '*' && !IsSpace(name[0]))
  }

  function PrintAll(lines: seq<Line>): (r: seq<string>)
    ensures |r| == |lines|
  {
    if lines == [] then [] else [lines[0].Print()] + PrintAll(lines[1..])
  }

  function NamesOf(lines: seq<Line>): set<string> {
    set i | 0 <= i < |lines| && lines[i].Sum? :: lines[i].name
  }

  /** `lines` prints `sums`: each entry once, in any order and any digest case. */
  ghost predicate Prints(lines: seq<Line>, sums: map<string, string>) {
    && NamesOf(lines) == sums.Keys
    && BlanksAreBlank(lines)
    && EntriesAgree(lines, sums)
  }

  ghost predicate EntriesAgree(lines: seq<Line>, sums: map<string, string>) {
    && (forall i | 0 <= i < |lines| && lines[i].Sum? ::
          && lines[i].name in sums && Leads(lines[i].lead, lines[i].name)
          && IsDigest(lines[i].digest) && Lower(lines[i].digest) == sums[lines[i].name])
    && (forall i, j | 0 <= i < j < |lines| && lines[i].Sum? && lines[j].Sum? :: lines[i].name != lines[j].name)
  }

  /** Names a checksum line can carry: usable, on one line, not ending in white space. */
  ghost predicate PrintableNames(sums: map<string, string>) {
    CleanSums(sums) && forall n | n in sums :: !IsSpace(n[|n| - 1])
  }

  lemma TrimmedTail(lead: string, name: string)
    requires ValidAssetName(name) && !IsSpace(name[|name| - 1]) && Leads(lead, name)
    ensures TrimPrefix(TrimPrefix(TrimSpace(lead + name), "*"), "./") == name
  {
    if lead == " " {
      TrimmedPlain(name);
    } else if lead == "*" {
      TrimmedMarked(name);
    } else if lead == " ./" {
      TrimmedDotted(name);
    } else {
      TrimmedBoth(name);
    }
  }

  lemma TrimmedPlain(name: string)
    requires ValidAssetName(name) && !IsSpace(name[|name| - 1]) && name[0] != '*' && !IsSpace(name[0])
    ensures TrimPrefix(TrimPrefix(TrimSpace(" " + name), "*"), "./") == name
  {
    TrimmedLead(" ", "", name);
    assert " " + "" + name == " " + name && "" + name == name;
  }

  lemma TrimmedMarked(name: string)
    requires ValidAssetName(name) && !IsSpace(name[|name| - 1])
    ensures TrimPrefix(TrimPrefix(TrimSpace("*" + name), "*"), "./") == name
  {
    TrimmedLead("", "*", name);
    assert "" + "*" + name == "*" + name && ("*" + name)[1..] == name;
  }

  lemma TrimmedDotted(name: string)
    requires ValidAssetName(name) && !IsSpace(name[|name| - 1])
    ensures TrimPrefix(TrimPrefix(TrimSpace(" ./" + name), "*"), "./") == name
  {
    TrimmedLead(" ", "./", name);
    assert " " + "./" + name == " ./" + name && ("./" + name)[2..] == name;
  }

  lemma TrimmedBoth(name: string)
    requires ValidAssetName(name) && !IsSpace(name[|name| - 1])
    ensures TrimPrefix(TrimPrefix(TrimSpace("*./" + name), "*"), "./") == name
  {
    TrimmedLead("", "*./", name);
    assert "" + "*./" + name == "*./" + name;
    assert ("*./" + name)[1..] == "./" + name && ("./" + name)[2..] == name;
  }

  lemma TrimmedLead(pad: string, mark: string, name: string)
    requires name != "" && !IsSpace(name[|name| - 1]) && pad in ["", " "]
    requires if mark == "" then !IsSpace(name[0]) else !IsSpace(mark[0])
    ensures TrimSpace(pad + mark + name) == mark + name
  {
    assert pad + mark + name == pad + (mark + name) + "";
    TrimSpaceOfPadded(pad, mark + name, "");
  }

  lemma ReadPrintedEntry(digest: string, lead: string, name: string)
    requires IsDigest(digest) && ValidAssetName(name) && !IsSpace(name[|name| - 1]) && Leads(lead, name)
    ensures ReadEntry(digest + " " + (lead + name)) == Ok(Entry(name, Lower(digest)))
  {
    var text, rest := digest + " " + (lead + name), lead + name;
    assert text == digest + [' '] + rest;
    IndexOfFirst(digest, ' ', rest);
    assert text[..|digest|] == digest && text[|digest| + 1..] == rest;
    TrimmedTail(lead, name);
  }

  lemma PrintedEntryIsTrimmed(digest: string, lead: string, name: string)
    requires IsDigest(digest) && name != "" && !IsSpace(name[|name| - 1])
    ensures var text := digest + " " + (lead + name); text != "" && TrimSpace(text) == text
  {
    var text := digest + " " + (lead + name);
    assert text[0] == digest[0] && digest[0] in digest;
    assert text == "" + text + "";
    TrimSpaceOfPadded("", text, "");
  }

  lemma NamesOfCons(lines: seq<Line>)
    requires lines != []
    ensures NamesOf(lines) == NamesOf(lines[1..]) + (if lines[0].Sum? then {lines[0].name} else {})
  {
    var rest := lines[1..];
    assert forall i | 0 < i < |lines| :: lines[i] == rest[i - 1];
    assert forall i | 0 <= i < |rest| :: rest[i] == lines[i + 1];
  }

  lemma EntriesAgreeTail(lines: seq<Line>, all: map<string, string>)
    requires lines != [] && EntriesAgree(lines, all)
    ensures EntriesAgree(lines[1..], all)
    ensures lines[0].Sum? ==> lines[0].name !in NamesOf(lines[1..])
  {
    var rest := lines[1..];
    assert forall i | 0 <= i < |rest| :: rest[i] == lines[i + 1];
  }

  lemma ParseBlank(pad: string, rest: seq<string>, sums: map<string, string>)
    requires IsBlank(pad)
    ensures ParseLines([pad] + rest, sums) == ParseLines(rest, sums)
  {
    assert pad + "" + "" == pad;
    TrimSpaceOfPadded(pad, "", "");
    assert ([pad] + rest)[1..] == rest;
  }

  lemma ParseEntry(digest: string, lead: string, name: string, rest: seq<string>, sums: map<string, string>)
    requires IsDigest(digest) && ValidAssetName(name) && !IsSpace(name[|name| - 1]) && Leads(lead, name)
    requires name !in sums
    ensures ParseLines([digest + " " + (lead + name)] + rest, sums) == ParseLines(rest, sums[name := Lower(digest)])
  {
    var line := digest + " " + (lead + name);
    ReadPrintedEntry(digest, lead, name);
    PrintedEntryIsTrimmed(digest, lead, name);
    assert ([line] + rest)[0] == line && ([line] + rest)[1..] == rest;
  }

  ghost predicate BlanksAreBlank(lines: seq<Line>) {
    forall i | 0 <= i < |lines| && lines[i].Blank? :: IsBlank(lines[i].pad) && '\n' !in lines[i].pad
  }

  ghost predicate AgreesOn(part: map<string, string>, all: map<string, string>) {
    forall n | n in part :: n in all && part[n] == all[n]
  }

  lemma FirstEntryAgrees(lines: seq<Line>, all: map<string, string>)
    requires lines != [] && lines[0].Sum? && PrintableNames(all) && EntriesAgree(lines, all)
    ensures var l := lines[0];
            && l.name in all && Leads(l.lead, l.name) && IsDigest(l.digest) && Lower(l.digest) == all[l.name]
            && ValidAssetName(l.name) && !IsSpace(l.name[|l.name| - 1])
            && l.name in NamesOf(lines)
  {}

  lemma PrintedLineParses(l: Line, rest: seq<string>, sums: map<string, string>, digest: string)
    requires l.Sum? && ValidAssetName(l.name) && !IsSpace(l.name[|l.name| - 1]) && Leads(l.lead, l.name)
    requires IsDigest(l.digest) && Lower(l.digest) == digest && l.name !in sums
    ensures ParseLines([l.Print()] + rest, sums) == ParseLines(rest, sums[l.name := digest])
  {
    ParseEntry(l.digest, l.lead, l.name, rest, sums);
  }

  lemma PrintedLineAgrees(lines: seq<Line>, all: map<string, string>, sums: map<string, string>)
    requires lines != [] && lines[0].Sum? && PrintableNames(all) && EntriesAgree(lines, all)
    requires sums.Keys !! NamesOf(lines)
    ensures var l := lines[0];
            && l.name in all && l.name !in sums
            && ParseLines(PrintAll(lines), sums) == ParseLines(PrintAll(lines[1..]), sums[l.name := all[l.name]])
  {
    FirstEntryAgrees(lines, all);
    assert lines[0].name in NamesOf(lines);
    PrintedLineParses(lines[0], PrintAll(lines[1..]), sums, all[lines[0].name]);
  }

  lemma {:induction false} ParsePrintedLines(lines: seq<Line>, all: map<string, string>, sums: map<string, string>)
    requires PrintableNames(all) && EntriesAgree(lines, all) && BlanksAreBlank(lines)
    requires sums.Keys !! NamesOf(lines) && AgreesOn(sums, all)
    ensures var r := ParseLines(PrintAll(lines), sums);
            r.Ok? && r.value.Keys == sums.Keys + NamesOf(lines) && AgreesOn(r.value, all)
  {
    if lines != [] {
      var l, rest := lines[0], lines[1..];
      NamesOfCons(lines);
      EntriesAgreeTail(lines, all);
      assert BlanksAreBlank(rest);
      if l.Blank? {
        ParseBlank(l.pad, PrintAll(rest), sums);
        ParsePrintedLines(rest, all, sums);
      } else {
        PrintedLineAgrees(lines, all, sums);
        ParsePrintedLines(rest, all, sums[l.name := all[l.name]]);
      }
    }
  }

  lemma PrintsOneLine(l: Line)
    requires l.Blank? ==> '\n' !in l.pad
    requires l.Sum? ==> IsDigest(l.digest) && Leads(l.lead, l.name) && '\n' !in l.name
    ensures '\n' !in l.Print()
  {
    if l.Sum? {
      assert '\n' !in l.digest;
      assert '\n' !in l.lead;
    }
  }

  lemma {:induction false} PrintAllOneLine(lines: seq<Line>, all: map<string, string>)
    requires CleanSums(all) && EntriesAgree(lines, all) && BlanksAreBlank(lines)
    ensures forall p | p in PrintAll(lines) :: '\n' !in p
  {
    if lines != [] {
      PrintsOneLine(lines[0]);
      EntriesAgreeTail(lines, all);
      assert BlanksAreBlank(lines[1..]);
      PrintAllOneLine(lines[1..], all);
    }
  }

  /** Round trip: whatever the order of the lines, the case of the digits and the
      blank lines between, a printed checksum file parses back to the map. */
  lemma ParseOfPrinted(lines: seq<Line>, sums: map<string, string>)
    requires sums != map[] && PrintableNames(sums) && Prints(lines, sums)
    ensures Parse(Join(PrintAll(lines), '\n')) == Ok(sums)
  {
    assert lines != [] by {
      assert sums.Keys != {};
    }
    PrintAllOneLine(lines, sums);
    SplitOfJoin(PrintAll(lines), '\n');
    ParsePrintedLines(lines, sums, map[]);
    SameMaps(ParseLines(PrintAll(lines), map[]).value, sums);
  }

  lemma SameMaps(a: map<string, string>, b: map<string, string>)
    requires a.Keys == b.Keys && AgreesOn(a, b)
    ensures a == b
  {}

  // ----- What an accepted file looks like -----

  lemma {:induction false} TrimLeftShrinks(s: string)
    ensures forall c | c in TrimLeft(s) :: c in s
  {
    if s != "" && IsSpace(s[0]) { TrimLeftShrinks(s[1..]); }
  }

  lemma {:induction false} TrimRightShrinks(s: string)
    ensures forall c | c in TrimRight(s) :: c in s
  {
    if s != "" && IsSpace(s[|s| - 1]) { TrimRightShrinks(s[..|s| - 1]); }
  }

  lemma TrimSpaceShrinks(s: string)
    ensures forall c | c in TrimSpace(s) :: c in s
  {
    TrimLeftShrinks(s);
    TrimRightShrinks(TrimLeft(s));
  }

  lemma ReadEntryIsClean(line: string)
    requires '\n' !in line && ReadEntry(line).Ok?
    ensures var e := ReadEntry(line).value; ValidAssetName(e.name) && '\n' !in e.name && IsLowerDigest(e.digest)
  {
    var i := IndexOf(line, ' ');
    LowerOfDigest(line[..i]);
    var rest := TrimSpace(line[i + 1..]);
    TrimSpaceShrinks(line[i + 1..]);
    assert '\n' !in rest;
    assert '\n' !in TrimPrefix(rest, "*");
  }

  /** Which lines are entries: those that start with 64 hexadecimal digits and a space, and
      whose rest, without white space around it, the mark of binary mode and "./", is a
      usable name. */
  lemma ReadEntryIff(line: string, e: Entry)
    ensures ReadEntry(line) == Ok(e) <==> exists digest, rest :: EntryReads(line, digest, rest, e)
  {
    if ReadEntry(line) == Ok(e) {
      var i := IndexOf(line, ' ');
      assert EntryReads(line, line[..i], line[i + 1..], e);
    }
    if digest, rest :| EntryReads(line, digest, rest, e) {
      assert ' ' !in digest;
      IndexOfFirst(digest, ' ', rest);
      assert line == digest + [' '] + rest;
      assert line[..|digest|] == digest && line[|digest| + 1..] == rest;
    }
  }

  ghost predicate EntryReads(line: string, digest: string, rest: string, e: Entry) {
    && line == digest + " " + rest
    && |digest| == 64 && (forall c | c in digest :: '0' <= c <= '9' || 'a' <= c <= 'f' || 'A' <= c <= 'F')
    && e.digest == Lower(digest)
    && e.name == TrimPrefix(TrimPrefix(TrimSpace(rest), "*"), "./") && ValidAssetName(e.name)
  }

  /** The lines of a file that are not blank. */
  function Entries(lines: seq<string>): seq<string> {
    if lines == [] then []
    else (if TrimSpace(lines[0]) == "" then [] else [TrimSpace(lines[0])]) + Entries(lines[1..])
  }

  /** The line is an entry, and `sums` has it. */
  predicate Listed(line: string, sums: map<string, string>) {
    var e := ReadEntry(line);
    e.Ok? && e.value.name in sums && sums[e.value.name] == e.value.digest
  }

  predicate Extends(more: map<string, string>, sums: map<string, string>) {
    forall n | n in sums :: n in more && more[n] == sums[n]
  }

  lemma ListedInMore(line: string, sums: map<string, string>, more: map<string, string>)
    requires Listed(line, sums) && Extends(more, sums)
    ensures Listed(line, more)
  {}

  lemma NewEntry(line: string, sums: map<string, string>)
    requires '\n' !in line && ReadEntry(line).Ok? && CleanSums(sums)
    requires ReadEntry(line).value.name !in sums
    ensures var more := sums[ReadEntry(line).value.name := ReadEntry(line).value.digest];
            CleanSums(more) && |more| == |sums| + 1 && Extends(more, sums) && Listed(line, more)
  {
    ReadEntryIsClean(line);
  }

  lemma {:induction false} ParseLinesSound(lines: seq<string>, sums: map<string, string>)
    requires forall l | l in lines :: '\n' !in l
    requires CleanSums(sums) && ParseLines(lines, sums).Ok?
    ensures var r := ParseLines(lines, sums).value;
            && CleanSums(r) && |r| == |sums| + |Entries(lines)| && Extends(r, sums)
            && forall l | l in Entries(lines) :: Listed(l, r)
  {
    if lines != [] {
      var line := TrimSpace(lines[0]);
      if line == "" {
        ParseLinesSound(lines[1..], sums);
      } else {
        TrimSpaceShrinks(lines[0]);
        NewEntry(line, sums);
        var e := ReadEntry(line).value;
        ParseLinesSound(lines[1..], sums[e.name := e.digest]);
        ListedInMore(line, sums[e.name := e.digest], ParseLines(lines, sums).value);
      }
    }
  }

  /** An accepted file has one well-formed line per entry and nothing else: every
      non-blank line is an entry of the result, and no two lines share a name. */
  lemma ParseSound(text: string)
    requires Parse(text).Ok?
    ensures var sums, lines := Parse(text).value, Entries(Split(text, '\n'));
            && sums != map[] && CleanSums(sums) && |sums| == |lines|
            && forall l | l in lines :: Listed(l, sums)
  {
    ParseLinesSound(Split(text, '\n'), map[]);
  }
}
