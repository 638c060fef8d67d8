/** What the pipeline reads out of tesseract's output: word confidences and a guess at
    the language. Confidences are reals; parsing a number is a parameter. */
module Ocr {
  import opened Text

  // ----- Means -----

  function Sum(vals: seq<real>): real {
    if vals == [] then 0.0 else Sum(vals[..|vals| - 1]) + vals[|vals| - 1]
  }

  function Mean(vals: seq<real>): real {
    if vals == [] then 0.0 else Sum(vals) / (|vals| as real)
  }

  lemma SumSnoc(vals: seq<real>, v: real)
    ensures Sum(vals + [v]) == Sum(vals) + v
  {
    assert (vals + [v])[..|vals + [v]| - 1] == vals;
  }

  /** meanFloat64. */
  method MeanOf(vals: seq<real>) returns (mean: real)
    ensures mean == Mean(vals)
  {
    if vals == [] {
      return 0.0;
    }
    var sum := 0.0;
    for i := 0 to |vals|
      invariant sum == Sum(vals[..i])
    {
      assert vals[..i + 1] == vals[..i] + [vals[i]];
      SumSnoc(vals[..i], vals[i]);
      sum := sum + vals[i];
    }
    assert vals[..|vals|] == vals;
    return sum / (|vals| as real);
  }

  lemma {:induction false} SumBetween(vals: seq<real>, low: real, high: real)
    requires forall v | v in vals :: low <= v <= high
    ensures low * (|vals| as real) <= Sum(vals) <= high * (|vals| as real)
  {
    if vals != [] {
      var n := |vals| - 1;
      assert vals[n] in vals && forall v | v in vals[..n] :: v in vals;
      SumBetween(vals[..n], low, high);
      assert low * (|vals| as real) == low * (n as real) + low;
      assert high * (|vals| as real) == high * (n as real) + high;
    }
  }

  /** The mean of some values lies within any bounds the values keep. */
  lemma MeanBetween(vals: seq<real>, low: real, high: real)
    requires vals != [] && forall v | v in vals :: low <= v <= high
    ensures low <= Mean(vals) <= high
  {
    SumBetween(vals, low, high);
    var n := |vals| as real;
    DivideBounds(low, Sum(vals), high, n);
  }

  lemma DivideBounds(low: real, sum: real, high: real, n: real)
    requires n > 0.0 && low * n <= sum <= high * n
    ensures low <= sum / n <= high
  {
    var q := sum / n;
    assert q * n == sum;
    SignOfProduct(q - low, n);
    SignOfProduct(high - q, n);
  }

  lemma SignOfProduct(x: real, n: real)
    requires n > 0.0 && x * n >= 0.0
    ensures x >= 0.0
  {}

  predicate IsLowConfidence(mean: real, threshold: real) { mean < threshold }

  // ----- Tesseract's tsv -----

  datatype Row = Row(conf: real, text: string)

  /** A line that counts: a word-level row of at least twelve columns whose confidence
      is a number and not negative. */
  function ReadRow(line: string, number: string -> Option<real>): Option<Row> {
    if TrimSpace(line) == "" then None else
    var cols := Split(line, '\t');
    if |cols| < 12 || TrimSpace(cols[0]) != "5" then None else
    var conf := number(TrimSpace(cols[10]));
    if conf.None? || conf.value < 0.0 then None else Some(Row(conf.value, TrimSpace(cols[11])))
  }

  function Rows(lines: seq<string>, number: string -> Option<real>): seq<Row> {
    if lines == [] then [] else
    var row := ReadRow(lines[|lines| - 1], number);
    Rows(lines[..|lines| - 1], number) + (if row.Some? then [row.value] else [])
  }

  function Confs(rows: seq<Row>): seq<real> {
    if rows == [] then [] else Confs(rows[..|rows| - 1]) + [rows[|rows| - 1].conf]
  }

  function Words(rows: seq<Row>): seq<string> {
    if rows == [] then [] else
    var text := rows[|rows| - 1].text;
    Words(rows[..|rows| - 1]) + (if text == "" then [] else [text])
  }

  /** The rows of a tsv output; its first line is the header. */
  function RowsOf(tsv: string, number: string -> Option<real>): seq<Row> {
    Rows(Split(tsv, '\n')[1..], number)
  }

  lemma RowsSnoc(lines: seq<string>, line: string, number: string -> Option<real>)
    ensures var row := ReadRow(line, number);
            Rows(lines + [line], number) == Rows(lines, number) + (if row.Some? then [row.value] else [])
  {
    assert (lines + [line])[..|lines + [line]| - 1] == lines;
  }

  lemma RowSnoc(rows: seq<Row>, row: Row)
    ensures Confs(rows + [row]) == Confs(rows) + [row.conf]
    ensures Words(rows + [row]) == Words(rows) + (if row.text == "" then [] else [row.text])
  {
    assert (rows + [row])[..|rows + [row]| - 1] == rows;
  }

  /** One line of the scan; every `continue` of the loop is a None. */
  method ScanLine(line: string, number: string -> Option<real>) returns (row: Option<Row>)
    ensures row == ReadRow(line, number)
  {
    if TrimSpace(line) == "" {
      return None;
    }
    var cols := Split(line, '\t');
    if |cols| < 12 {
      return None;
    }
    if TrimSpace(cols[0]) != "5" {
      return None;
    }
    var conf := number(TrimSpace(cols[10]));
    if conf.None? || conf.value < 0.0 {
      return None;
    }
    return Some(Row(conf.value, TrimSpace(cols[11])));
  }

  /** The accumulators of the scan, after some rows. */
  ghost predicate Accumulated(rows: seq<Row>, sum: real, count: nat, words: seq<string>) {
    count == |rows| == |Confs(rows)| && sum == Sum(Confs(rows)) && words == Words(rows)
  }

  lemma AccumulateOne(rows: seq<Row>, row: Row, sum: real, count: nat, words: seq<string>)
    requires Accumulated(rows, sum, count, words)
    ensures Accumulated(rows + [row], sum + row.conf, count + 1, if row.text == "" then words else words + [row.text])
  {
    RowSnoc(rows, row);
    SumSnoc(Confs(rows), row.conf);
  }

  /** The accumulators after the first `i` lines below the header. */
  ghost predicate Scanned(lines: seq<string>, i: nat, number: string -> Option<real>, sum: real, count: nat,
                          words: seq<string>)
    requires i <= |lines|
  {
    Accumulated(Rows(lines[..i], number), sum, count, words)
  }

  lemma ScanOneMore(lines: seq<string>, i: nat, number: string -> Option<real>, sum: real, count: nat,
                    words: seq<string>)
    requires i < |lines| && Scanned(lines, i, number, sum, count, words)
    ensures var row := ReadRow(lines[i], number);
            if row.None? then Scanned(lines, i + 1, number, sum, count, words)
            else Scanned(lines, i + 1, number, sum + row.value.conf, count + 1,
                         if row.value.text == "" then words else words + [row.value.text])
  {
    var rows, row := Rows(lines[..i], number), ReadRow(lines[i], number);
    assert lines[..i + 1] == lines[..i] + [lines[i]];
    RowsSnoc(lines[..i], lines[i], number);
    if row.None? {
      assert rows + [] == rows;
    } else {
      AccumulateOne(rows, row.value, sum, count, words);
    }
  }

  method ScanLines(lines: seq<string>, number: string -> Option<real>)
    returns (sum: real, count: nat, words: seq<string>)
    requires lines != []
    ensures Accumulated(Rows(lines[1..], number), sum, count, words)
  {
    ghost var body := lines[1..];
    sum, count, words := 0.0, 0, [];
    for i := 1 to |lines|
      invariant Scanned(body, i - 1, number, sum, count, words)
    {
      var row := ScanLine(lines[i], number);
      ScanOneMore(body, i - 1, number, sum, count, words);
      if row.None? {
        continue;
      }
      sum := sum + row.value.conf;
      count := count + 1;
      if row.value.text != "" {
        words := words + [row.value.text];
      }
    }
    assert body[..|lines| - 1] == body;
  }

  /** parseOCRTSV: the mean confidence, the number of rows and their words. */
  method ParseTSV(tsv: string, number: string -> Option<real>) returns (mean: real, count: nat, words: seq<string>)
    ensures count == |RowsOf(tsv, number)|
    ensures mean == Mean(Confs(RowsOf(tsv, number))) && words == Words(RowsOf(tsv, number))
  {
    var lines := Split(tsv, '\n');
    var sum;
    sum, count, words := ScanLines(lines, number);
    if count == 0 {
      return 0.0, 0, [];
    }
    return sum / (count as real), count, words;
  }

  lemma {:induction false} RowsAreValid(lines: seq<string>, number: string -> Option<real>)
    ensures forall row | row in Rows(lines, number) :: row.conf >= 0.0
  {
    if lines != [] {
      RowsAreValid(lines[..|lines| - 1], number);
    }
  }

  lemma {:induction false} ConfsAreRows(rows: seq<Row>)
    requires forall row | row in rows :: row.conf >= 0.0
    ensures forall c | c in Confs(rows) :: c >= 0.0
  {
    if rows != [] {
      var n := |rows| - 1;
      assert rows[n] in rows && forall row | row in rows[..n] :: row in rows;
      ConfsAreRows(rows[..n]);
    }
  }

  /** The mean of a page is never negative, and is 0 when nothing was recognised. */
  lemma MeanIsNotNegative(tsv: string, number: string -> Option<real>)
    ensures Mean(Confs(RowsOf(tsv, number))) >= 0.0
    ensures RowsOf(tsv, number) == [] ==> Mean(Confs(RowsOf(tsv, number))) == 0.0
  {
    var confs := Confs(RowsOf(tsv, number));
    RowsAreValid(Split(tsv, '\n')[1..], number);
    ConfsAreRows(RowsOf(tsv, number));
    MeanOfNonNegative(confs);
  }

  lemma MeanOfNonNegative(vals: seq<real>)
    requires forall v | v in vals :: v >= 0.0
    ensures Mean(vals) >= 0.0
  {
    SumOfNonNegative(vals);
    if vals != [] {
      var n := |vals| as real;
      SignOfProduct(Sum(vals) / n, n);
    }
  }

  lemma {:induction false} SumOfNonNegative(vals: seq<real>)
    requires forall v | v in vals :: v >= 0.0
    ensures Sum(vals) >= 0.0
  {
    if vals != [] {
      var n := |vals| - 1;
      assert vals[n] in vals && forall v | v in vals[..n] :: v in vals;
      SumOfNonNegative(vals[..n]);
    }
  }

  // ----- Guessing the language -----

  const PUNCTUATION := ".,;:!?()[]{}\"'\U{AB}\U{BB}\U{201E}\U{201C}\U{201D}\U{2014}-"

  /** strings.Trim. */
  function Trim(s: string, cutset: string): string {
    if s != "" && s[0] in cutset then Trim(s[1..], cutset)
    else if s != "" && s[|s| - 1] in cutset then Trim(s[..|s| - 1], cutset)
    else s
  }

  function TrimPunctuation(s: string): string { Trim(s, PUNCTUATION) }

  /** Length of the leading run of white space, or of other characters. */
  function RunLength(s: string, space: bool): (n: nat)
    ensures n <= |s|
  {
    if s == "" || IsSpace(s[0]) != space then 0 else 1 + RunLength(s[1..], space)
  }

  /** strings.Fields. */
  function Fields(s: string): seq<string>
    decreases |s|
  {
    var t := s[RunLength(s, true)..];
    if t == "" then [] else
    var n := RunLength(t, false);
    if n == 0 then [] else [t[..n]] + Fields(t[n..])
  }

  function CountIn(list: seq<string>, word: string): nat {
    if list == [] then 0
    else CountIn(list[..|list| - 1], word) + (if list[|list| - 1] == word then 1 else 0)
  }

  function Stops(stopwords: map<string, seq<string>>, lang: string): seq<string> {
    if lang in stopwords then stopwords[lang] else []
  }

  /** What one word adds to the score of `lang`, over the candidates in order. */
  function WordScore(word: string, candidates: seq<string>, stopwords: map<string, seq<string>>, lang: string): nat {
    if candidates == [] then 0 else
    var last := candidates[|candidates| - 1];
    WordScore(word, candidates[..|candidates| - 1], stopwords, lang)
    + (if last == lang then CountIn(Stops(stopwords, lang), word) else 0)
  }

  function Score(fields: seq<string>, candidates: seq<string>, stopwords: map<string, seq<string>>, lang: string): nat {
    if fields == [] then 0 else
    var word := TrimPunctuation(fields[|fields| - 1]);
    Score(fields[..|fields| - 1], candidates, stopwords, lang)
    + (if word == "" then 0 else WordScore(word, candidates, stopwords, lang))
  }

  function Got(scores: map<string, nat>, lang: string): nat {
    if lang in scores then scores[lang] else 0
  }

  /** The innermost loop: one word against one candidate's stop words. */
  method AddHits(scores: map<string, nat>, word: string, lang: string, stops: seq<string>) returns (r: map<string, nat>)
    ensures forall l :: Got(r, l) == Got(scores, l) + (if l == lang then CountIn(stops, word) else 0)
  {
    r := scores;
    assert CountIn(stops[..0], word) == 0;
    for k := 0 to |stops|
      invariant forall l :: Got(r, l) == Got(scores, l) + (if l == lang then CountIn(stops[..k], word) else 0)
    {
      assert stops[..k + 1][..k] == stops[..k];
      if word == stops[k] {
        r := r[lang := Got(r, lang) + 1];
      }
    }
    assert stops[..|stops|] == stops;
  }

  /** The middle loop: one word against every candidate. */
  method AddWord(scores: map<string, nat>, word: string, candidates: seq<string>, stopwords: map<string, seq<string>>)
    returns (r: map<string, nat>)
    ensures forall l :: Got(r, l) == Got(scores, l) + WordScore(word, candidates, stopwords, l)
  {
    r := scores;
    for j := 0 to |candidates|
      invariant forall l :: Got(r, l) == Got(scores, l) + WordScore(word, candidates[..j], stopwords, l)
    {
      assert candidates[..j + 1][..j] == candidates[..j];
      r := AddHits(r, word, candidates[j], Stops(stopwords, candidates[j]));
    }
    assert candidates[..|candidates|] == candidates;
  }

  /** The earliest candidate of the highest positive score, or "". */
  function Best(fields: seq<string>, candidates: seq<string>, stopwords: map<string, seq<string>>,
                upto: nat): (string, nat)
    requires upto <= |candidates|
  {
    if upto == 0 then ("", 0) else
    var best := Best(fields, candidates, stopwords, upto - 1);
    var lang := candidates[upto - 1];
    var score := Score(fields, candidates, stopwords, lang);
    if score > best.1 then (lang, score) else best
  }

  function Detected(lowered: string, candidates: seq<string>, stopwords: map<string, seq<string>>): string {
    Best(Fields(lowered), candidates, stopwords, |candidates|).0
  }

  /** detectLanguage, on text already in lower case. */
  method DetectLanguage(lowered: string, candidates: seq<string>, stopwords: map<string, seq<string>>)
    returns (best: string)
    ensures best == Detected(lowered, candidates, stopwords)
  {
    var fields := Fields(lowered);
    var scores: map<string, nat> := map[];
    for i := 0 to |fields|
      invariant forall l :: Got(scores, l) == Score(fields[..i], candidates, stopwords, l)
    {
      assert fields[..i + 1][..i] == fields[..i];
      var word := TrimPunctuation(fields[i]);
      if word == "" {
        continue;
      }
      scores := AddWord(scores, word, candidates, stopwords);
    }
    assert fields[..|fields|] == fields;
    var bestScore := 0;
    best := "";
    for j := 0 to |candidates|
      invariant (best, bestScore) == Best(fields, candidates, stopwords, j)
    {
      if Got(scores, candidates[j]) > bestScore {
        best, bestScore := candidates[j], Got(scores, candidates[j]);
      }
    }
  }

  lemma {:induction false} BestIsEarliestMaximum(fields: seq<string>, candidates: seq<string>,
                                                 stopwords: map<string, seq<string>>, upto: nat)
    returns (at: nat)
    requires upto <= |candidates|
    ensures var best := Best(fields, candidates, stopwords, upto);
            && (forall j | 0 <= j < upto :: Score(fields, candidates, stopwords, candidates[j]) <= best.1)
            && (best.1 == 0 ==> best.0 == "")
            && (best.1 > 0 ==>
                  && at < upto && best == (candidates[at], Score(fields, candidates, stopwords, candidates[at]))
                  && forall j | 0 <= j < at :: Score(fields, candidates, stopwords, candidates[j]) < best.1)
  {
    at := 0;
    if upto > 0 {
      at := BestIsEarliestMaximum(fields, candidates, stopwords, upto - 1);
      if Score(fields, candidates, stopwords, candidates[upto - 1]) > Best(fields, candidates, stopwords, upto - 1).1 {
        at := upto - 1;
      }
    }
  }

  ghost predicate IsEarliestBest(fields: seq<string>, candidates: seq<string>, stopwords: map<string, seq<string>>,
                                 i: int)
  {
    && 0 <= i < |candidates|
    && (forall j | 0 <= j < |candidates| ::
          Score(fields, candidates, stopwords, candidates[j]) <= Score(fields, candidates, stopwords, candidates[i]))
    && (forall j | 0 <= j < i ::
          Score(fields, candidates, stopwords, candidates[j]) < Score(fields, candidates, stopwords, candidates[i]))
  }

  /** The guess is the earliest candidate of maximal positive score; there is none
      exactly when every candidate scores zero. */
  lemma DetectedIsEarliestBest(lowered: string, candidates: seq<string>, stopwords: map<string, seq<string>>)
    requires "" !in candidates
    ensures var guess, fields := Detected(lowered, candidates, stopwords), Fields(lowered);
            && (guess == "" <==> forall c | c in candidates :: Score(fields, candidates, stopwords, c) == 0)
            && (guess != "" ==> exists i :: IsEarliestBest(fields, candidates, stopwords, i) && candidates[i] == guess)
  {
    var fields := Fields(lowered);
    var at := BestIsEarliestMaximum(fields, candidates, stopwords, |candidates|);
    var best := Best(fields, candidates, stopwords, |candidates|);
    if best.1 > 0 {
      assert candidates[at] in candidates;
      assert IsEarliestBest(fields, candidates, stopwords, at);
    }
  }

  // ----- What the means, rows and scores are -----

  lemma {:induction false} SumConcat(a: seq<real>, b: seq<real>)
    ensures Sum(a + b) == Sum(a) + Sum(b)
  {
    if b == [] {
      assert a + b == a;
    } else {
      var n := |b| - 1;
      assert a + b == (a + b[..n]) + [b[n]] && b == b[..n] + [b[n]];
      SumConcat(a, b[..n]);
      SumSnoc(a + b[..n], b[n]);
    }
  }

  /** The mean shares a total out evenly: times the count it is the sum. */
  lemma MeanIsTheShare(vals: seq<real>)
    ensures vals != [] ==> Mean(vals) * (|vals| as real) == Sum(vals)
    ensures vals == [] ==> Mean(vals) == 0.0
    ensures |vals| == 1 ==> Mean(vals) == vals[0]
  {
    if |vals| == 1 {
      assert vals[..0] == [] && Sum(vals[..0]) == 0.0;
    }
  }

  lemma BlankIffTrimsAway(s: string)
    ensures IsBlank(s) ==> TrimSpace(s) == ""
  {
    if IsBlank(s) {
      TrimSpaceOfPadded(s, "", "");
      assert s + "" + "" == s;
    }
  }

  lemma {:induction false} TrimLeftKeeps(s: string, k: nat) returns (j: nat)
    requires k < |s| && !IsSpace(s[k])
    ensures j < |TrimLeft(s)| && TrimLeft(s)[j] == s[k]
  {
    if IsSpace(s[0]) {
      assert s[1..][k - 1] == s[k];
      j := TrimLeftKeeps(s[1..], k - 1);
    } else {
      j := k;
    }
  }

  lemma {:induction false} TrimRightKeeps(s: string, k: nat)
    requires k < |s| && !IsSpace(s[k])
    ensures TrimRight(s) != ""
  {
    if IsSpace(s[|s| - 1]) {
      assert s[..|s| - 1][k] == s[k];
      TrimRightKeeps(s[..|s| - 1], k);
    }
  }

  lemma InkIsKept(s: string, k: nat)
    requires k < |s| && !IsSpace(s[k])
    ensures TrimSpace(s) != ""
  {
    var j := TrimLeftKeeps(s, k);
    TrimRightKeeps(TrimLeft(s), j);
  }

  lemma FirstColumnShows(cols: seq<string>)
    requires cols != [] && TrimSpace(cols[0]) != ""
    ensures TrimSpace(Join(cols, '\t')) != ""
  {
    if IsBlank(cols[0]) {
      BlankIffTrimsAway(cols[0]);
    } else {
      var c :| c in cols[0] && !IsSpace(c);
      var k :| 0 <= k < |cols[0]| && cols[0][k] == c;
      assert Join(cols, '\t')[k] == c;
      InkIsKept(Join(cols, '\t'), k);
    }
  }

  /** Which lines are word rows: those of at least twelve columns with 5 in the first and a
      number that is not negative in the eleventh; the row is that number and the twelfth
      column. */
  lemma RowOfColumns(cols: seq<string>, number: string -> Option<real>)
    requires cols != [] && forall c | c in cols :: '\t' !in c
    ensures ReadRow(Join(cols, '\t'), number) ==
            if |cols| >= 12 && TrimSpace(cols[0]) == "5" && number(TrimSpace(cols[10])).Some?
               && number(TrimSpace(cols[10])).value >= 0.0
            then Some(Row(number(TrimSpace(cols[10])).value, TrimSpace(cols[11]))) else None
  {
    SplitOfJoin(cols, '\t');
    if TrimSpace(cols[0]) != "" {
      FirstColumnShows(cols);
    }
  }

  /** Reading a tsv line by line: the header is skipped whatever it says, and the rows of
      the other lines come in their order. */
  lemma RowsOfLines(header: string, lines: seq<string>, number: string -> Option<real>)
    requires '\n' !in header && forall l | l in lines :: '\n' !in l
    ensures RowsOf(Join([header] + lines, '\n'), number) == Rows(lines, number)
  {
    SplitOfJoin([header] + lines, '\n');
    assert ([header] + lines)[1..] == lines;
  }

  lemma {:induction false} RowsConcat(a: seq<string>, b: seq<string>, number: string -> Option<real>)
    ensures Rows(a + b, number) == Rows(a, number) + Rows(b, number)
  {
    if b == [] {
      assert a + b == a;
    } else {
      var n := |b| - 1;
      assert a + b == (a + b[..n]) + [b[n]] && b == b[..n] + [b[n]];
      RowsConcat(a, b[..n], number);
      RowsSnoc(a + b[..n], b[n], number);
      RowsSnoc(b[..n], b[n], number);
    }
  }

  lemma {:induction false} ConfsOfRows(rows: seq<Row>)
    ensures |Confs(rows)| == |rows| && forall k | 0 <= k < |rows| :: Confs(rows)[k] == rows[k].conf
  {
    if rows != [] {
      ConfsOfRows(rows[..|rows| - 1]);
    }
  }

  /** How often a word stands in a list. */
  lemma {:induction false} CountIsMultiplicity(list: seq<string>, word: string)
    ensures CountIn(list, word) == multiset(list)[word]
  {
    if list != [] {
      var n := |list| - 1;
      CountIsMultiplicity(list[..n], word);
      assert list == list[..n] + [list[n]];
    }
  }

  lemma {:induction false} WordScoreCounts(word: string, candidates: seq<string>, stopwords: map<string, seq<string>>,
                                           lang: string)
    ensures WordScore(word, candidates, stopwords, lang) ==
            CountIn(candidates, lang) * CountIn(Stops(stopwords, lang), word)
  {
    if candidates != [] {
      WordScoreCounts(word, candidates[..|candidates| - 1], stopwords, lang);
    }
  }

  lemma ScoreSnoc(fields: seq<string>, field: string, candidates: seq<string>, stopwords: map<string, seq<string>>,
                  lang: string)
    ensures Score(fields + [field], candidates, stopwords, lang) ==
            Score(fields, candidates, stopwords, lang)
            + if TrimPunctuation(field) == "" then 0
              else WordScore(TrimPunctuation(field), candidates, stopwords, lang)
  {
    assert (fields + [field])[..|fields|] == fields;
  }

  /** A further field adds to the score of a candidate listed once as often as its word, less
      the punctuation around it, stands among that candidate's stop words. */
  lemma ScoreOfOneMore(fields: seq<string>, field: string, candidates: seq<string>,
                       stopwords: map<string, seq<string>>, lang: string)
    requires multiset(candidates)[lang] == 1 && lang in stopwords && "" !in stopwords[lang]
    ensures Score([], candidates, stopwords, lang) == 0
    ensures Score(fields + [field], candidates, stopwords, lang) ==
            Score(fields, candidates, stopwords, lang) + multiset(stopwords[lang])[TrimPunctuation(field)]
  {
    ScoreSnoc(fields, field, candidates, stopwords, lang);
    WordScoreCounts(TrimPunctuation(field), candidates, stopwords, lang);
    CountIsMultiplicity(candidates, lang);
    CountIsMultiplicity(stopwords[lang], TrimPunctuation(field));
  }

  predicate AllIn(s: string, cutset: string) { forall k | 0 <= k < |s| :: s[k] in cutset }

  /** Trimming takes off everything in the cutset at both ends and nothing else. */
  lemma {:induction false} TrimSplits(s: string, cutset: string) returns (left: string, right: string)
    ensures s == left + Trim(s, cutset) + right && AllIn(left, cutset) && AllIn(right, cutset)
    ensures var core := Trim(s, cutset);
            core != "" ==> core[0] !in cutset && core[|core| - 1] !in cutset
  {
    left, right := "", "";
    if s != "" && s[0] in cutset {
      left, right := TrimSplits(s[1..], cutset);
      left := [s[0]] + left;
    } else if s != "" && s[|s| - 1] in cutset {
      left, right := TrimSplits(s[..|s| - 1], cutset);
      right := right + [s[|s| - 1]];
    }
  }

  lemma {:induction false} RunOf(word: string, rest: string, space: bool)
    requires forall c | c in word :: IsSpace(c) == space
    requires rest != "" ==> IsSpace(rest[0]) != space
    ensures RunLength(word + rest, space) == |word|
  {
    if word == "" {
      assert word + rest == rest;
    } else {
      assert (word + rest)[1..] == word[1..] + rest && word[0] in word;
      RunOf(word[1..], rest, space);
    }
  }

  predicate Solid(word: string) { word != "" && forall c | c in word :: !IsSpace(c) }

  /** A field is read off up to the next white space. */
  lemma FieldsStep(word: string, rest: string)
    requires Solid(word) && (rest != "" ==> IsSpace(rest[0]))
    ensures Fields(word + rest) == [word] + Fields(rest)
  {
    var text := word + rest;
    assert word[0] in word && text[0..] == text;
    RunOf("", text, true);
    assert "" + text == text;
    RunOf(word, rest, false);
    assert text[..|word|] == word && text[|word|..] == rest;
  }

  lemma RunAfterSpace(s: string)
    ensures RunLength([' '] + s, true) == 1 + RunLength(s, true)
  {
    assert ([' '] + s)[1..] == s;
  }

  lemma FieldsAfterSpace(s: string)
    ensures Fields([' '] + s) == Fields(s)
  {
    RunAfterSpace(s);
    var n := RunLength(s, true);
    assert ([' '] + s)[1 + n..] == s[n..];
  }

  lemma FieldsOfOne(word: string)
    requires Solid(word)
    ensures Fields(word) == [word]
  {
    FieldsStep(word, "");
    assert word + "" == word && Fields("") == [];
  }

  lemma FieldsOfOneMore(word: string, s: string)
    requires Solid(word)
    ensures Fields(word + [' '] + s) == [word] + Fields(s)
  {
    assert IsSpace(' ') && word + [' '] + s == word + ([' '] + s);
    FieldsStep(word, [' '] + s);
    FieldsAfterSpace(s);
  }

  /** Words joined by single spaces are the fields again. */
  lemma {:induction false} FieldsOfJoin(words: seq<string>)
    requires forall k | 0 <= k < |words| :: Solid(words[k])
    ensures Fields(Join(words, ' ')) == words
  {
    if |words| == 1 {
      FieldsOfOne(words[0]);
    } else if words != [] {
      FieldsOfJoin(words[1..]);
      FieldsOfOneMore(words[0], Join(words[1..], ' '));
      assert words == [words[0]] + words[1..];
    }
  }
}
