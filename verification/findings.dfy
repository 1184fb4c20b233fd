/** The finding-frequency pipeline shared by
    `create_challenge_frequency_graph` (Scripts/Graph.py, Scripts/Main.py)
    and `create_vulnerability_frequency_graph` (Analysis.py): count every
    description across all municipalities, rank the counts with
    `sort_dictionaries`, reverse, keep the first 15 (written to a text file)
    and the first 5 (plotted). */
module Findings {
  import opened Wrappers
  import opened OrderedDict
  import opened Sorting
  import opened Ranker
  import opened Text

  /** The vulnerability table: a list of dicts `{municipality: [description, ...]}`. */
  type Table = seq<Dict<seq<string>>>

  function FlattenItems(items: seq<(string, seq<string>)>): seq<string>
    decreases |items|
  {
    if |items| == 0 then [] else items[0].1 + FlattenItems(items[1..])
  }

  /** The descriptions in the order the three nested loops visit them:
      table order, then item order inside each dict, then list order. */
  function Flatten(table: Table): seq<string>
    decreases |table|
  {
    if |table| == 0 then [] else FlattenItems(table[0].items) + Flatten(table[1..])
  }

  /** `freq[c] = freq.get(c, 0) + 1` */
  function Increment(freq: Dict<int>, c: string): Dict<int> {
    Put(freq, c, GetOr(freq, c, 0) + 1)
  }

  /** The counting loop run over `xs`, one description at a time, from an
      empty dict. */
  function Frequencies(xs: seq<string>): Dict<int>
    decreases |xs|
  {
    if |xs| == 0 then Empty() else Increment(Frequencies(xs[..|xs| - 1]), xs[|xs| - 1])
  }

  /** `challenge_frequency` / `vulnerability_frequency` after the nested loops. */
  function ChallengeFrequency(table: Table): Dict<int> {
    Frequencies(Flatten(table))
  }

  function Sum(s: seq<int>): int
    decreases |s|
  {
    if |s| == 0 then 0 else Sum(s[..|s| - 1]) + s[|s| - 1]
  }

  lemma SumAppend(s: seq<int>, v: int)
    ensures Sum(s + [v]) == Sum(s) + v
  {
    assert (s + [v])[..|s|] == s;
  }

  lemma {:induction false} SumUpdate(s: seq<int>, i: nat, v: int)
    requires i < |s|
    ensures Sum(s[i := v]) == Sum(s) - s[i] + v
    decreases |s|
  {
    var t := s[i := v];
    if i < |s| - 1 {
      assert t[..|t| - 1] == s[..|s| - 1][i := v];
      SumUpdate(s[..|s| - 1], i, v);
    } else {
      assert t[..|t| - 1] == s[..|s| - 1];
    }
  }

  /** Every description's count is its number of occurrences, repeats
      included; the dict is a genuine dict. */
  lemma {:induction false} FrequenciesCount(xs: seq<string>)
    ensures Valid(Frequencies(xs))
    ensures forall x :: GetOr(Frequencies(xs), x, 0) == multiset(xs)[x]
    decreases |xs|
  {
    if |xs| > 0 {
      var p := xs[..|xs| - 1];
      var c := xs[|xs| - 1];
      FrequenciesCount(p);
      var f := Frequencies(p);
      PutValid(f, c, GetOr(f, c, 0) + 1);
      assert xs == p + [c];
      forall x
        ensures GetOr(Frequencies(xs), x, 0) == multiset(xs)[x]
      {
        PutLookup(f, c, GetOr(f, c, 0) + 1, x);
      }
    }
  }

  /** The keys are exactly the distinct descriptions, in order of first appearance. */
  lemma {:induction false} FrequenciesKeys(xs: seq<string>)
    ensures forall x :: x in Keys(Frequencies(xs)) <==> x in xs
    ensures forall i, j :: 0 <= i < j < |Frequencies(xs).items| ==>
              IndexOf(xs, Frequencies(xs).items[i].0) < IndexOf(xs, Frequencies(xs).items[j].0)
    decreases |xs|
  {
    if |xs| > 0 {
      var p := xs[..|xs| - 1];
      var c := xs[|xs| - 1];
      FrequenciesKeys(p);
      assert xs == p + [c];
      var ks := Keys(Frequencies(p));
      var ks' := Keys(Frequencies(xs));
      forall k | k in ks
        ensures IndexOf(xs, k) == IndexOf(p, k) < |p|
      {
        IndexOfAppend(p, k, c);
      }
      if c !in ks {
        assert ks' == ks + [c];
        assert c !in p;
        assert IndexOf(xs, c) == |p|;
      } else {
        assert ks' == ks;
      }
    }
  }

  /** The counts add up to the number of descriptions. */
  lemma {:induction false} FrequenciesSum(xs: seq<string>)
    ensures Sum(Values(Frequencies(xs))) == |xs|
    decreases |xs|
  {
    if |xs| > 0 {
      var p := xs[..|xs| - 1];
      var c := xs[|xs| - 1];
      FrequenciesSum(p);
      var f := Frequencies(p);
      var vs := Values(f);
      var n := GetOr(f, c, 0) + 1;
      assert Frequencies(xs) == Put(f, c, n);
      PutValues(f, c, n);
      if c in Keys(f) {
        var i := IndexOf(Keys(f), c);
        assert GetOr(f, c, 0) == vs[i];
        SumUpdate(vs, i, n);
      } else {
        SumAppend(vs, n);
      }
    }
  }

  /** The frequency table built from a vulnerability table counts every
      description of every municipality, and the counts total the number of
      descriptions in the table. */
  lemma ChallengeFrequencyCounts(table: Table)
    ensures Valid(ChallengeFrequency(table))
    ensures forall x :: GetOr(ChallengeFrequency(table), x, 0) == multiset(Flatten(table))[x]
    ensures forall x :: x in Keys(ChallengeFrequency(table)) <==> x in Flatten(table)
    ensures Sum(Values(ChallengeFrequency(table))) == |Flatten(table)|
  {
    FrequenciesCount(Flatten(table));
    FrequenciesKeys(Flatten(table));
    FrequenciesSum(Flatten(table));
  }

  /** `top_vulnerabilities_15` */
  function Top15(table: Table): seq<(string, int)> {
    TopK(ChallengeFrequency(table), 15)
  }

  /** `top_vulnerabilities` (the five that are plotted) */
  function Top5(table: Table): seq<(string, int)> {
    TopK(ChallengeFrequency(table), 5)
  }

  /** The top-15 list has min(15, #distinct) entries, the top-5 list is its
      prefix of min(5, #distinct) entries, and counts never increase. */
  lemma TopListsShape(table: Table)
    ensures |Top15(table)| == Min(15, |Keys(ChallengeFrequency(table))|)
    ensures |Top5(table)| == Min(5, |Keys(ChallengeFrequency(table))|)
    ensures Top5(table) == Top15(table)[..|Top5(table)|]
    ensures forall i, j :: 0 <= i < j < |Top15(table)| ==> Top15(table)[i].1 >= Top15(table)[j].1
  {
    var f := ChallengeFrequency(table);
    FrequenciesCount(Flatten(table));
    TopKShape(f, 15);
    TopKShape(f, 5);
    TopKDescending(f, 15);
    TopKPrefix(f, 5, 15);
  }

  /** The top-k names are the last k distinct descriptions in order of first
      appearance, reversed, paired with the k largest counts, largest first. */
  lemma TopNamesAndCounts(table: Table, k: nat)
    ensures |TopK(ChallengeFrequency(table), k)| == Min(k, |ChallengeFrequency(table).items|)
    ensures var f := ChallengeFrequency(table);
            var n := |f.items|;
            forall i :: 0 <= i < |TopK(f, k)| ==>
              TopK(f, k)[i] == (Keys(f)[n - 1 - i], Sort(Values(f))[n - 1 - i])
    ensures var f := ChallengeFrequency(table);
            forall i, j :: 0 <= i < |TopK(f, k)| && 0 <= j < |f.items| - |TopK(f, k)| ==>
              TopK(f, k)[i].1 >= Sort(Values(f))[j]
  {
    var f := ChallengeFrequency(table);
    FrequenciesCount(Flatten(table));
    TopKShape(f, k);
    TopKDominates(f, k);
  }

  lemma FlattenSmallTable()
    ensures Flatten([Single("A", ["x", "y"]), Single("B", ["x"])]) == ["x", "y", "x"]
  {
    var table := [Single("A", ["x", "y"]), Single("B", ["x"])];
    assert FlattenItems(table[1].items) == ["x"];
    assert FlattenItems(table[0].items) == ["x", "y"];
    assert Flatten(table[1..]) == ["x"];
  }

  lemma FrequenciesSmallTable()
    ensures Frequencies(["x", "y", "x"]) == Dict([("x", 2), ("y", 1)])
  {
    var xs := ["x", "y", "x"];
    assert xs[..2] == ["x", "y"];
    assert xs[..2][..1] == ["x"];
    assert xs[..2][..1][..0] == [];
    var f1 := Frequencies(["x"]);
    assert f1 == Put(Empty(), "x", 1);
    assert f1.items == [("x", 1)];
    var f2 := Frequencies(["x", "y"]);
    assert Keys(f1) == ["x"];
    assert f2 == Put(f1, "y", 1);
    assert f2.items == [("x", 1), ("y", 1)];
    assert Keys(f2) == ["x", "y"];
    assert GetOr(f2, "x", 0) == 1;
  }

  /** For the table `[{A: [x, y]}, {B: [x]}]` the counts are `{x: 2, y: 1}`,
      but the ranker hands the largest count to the LAST key, so the top-1
      list is `[("y", 2)]`, not `[("x", 2)]`. */
  lemma TopOneOfSmallTable()
    ensures ChallengeFrequency([Single("A", ["x", "y"]), Single("B", ["x"])]) == Dict([("x", 2), ("y", 1)])
    ensures TopK(Dict([("x", 2), ("y", 1)]), 1) == [("y", 2)]
  {
    FlattenSmallTable();
    FrequenciesSmallTable();
    SortDictionariesMovesValues("x", "y");
    var items := Reverse([("x", 1), ("y", 2)]);
    assert items[..1] == [("y", 2)];
  }

  /** One line of the top-15 file: `f"{key}{sep}{value}\n"`. */
  function FormatLine(sep: string, key: string, value: int): string {
    key + sep + IntToString(value) + "\n"
  }

  /** Separator of `top_issues.txt` (Scripts/Graph.py, Scripts/Main.py). */
  const IssuesSeparator: string := " | "

  /** Separator of `top_vulnerabilities.csv` (Analysis.py). */
  const CsvSeparator: string := " , "

  function Lines(sep: string, top: seq<(string, int)>): (ls: seq<string>)
    ensures |ls| == |top|
  {
    seq(|top|, i requires 0 <= i < |top| => FormatLine(sep, top[i].0, top[i].1))
  }

  /** The text of `top_issues.txt`. */
  function TopIssuesText(top: seq<(string, int)>): string {
    Concat(Lines(IssuesSeparator, top))
  }

  /** The text of `top_vulnerabilities.csv`. */
  function TopVulnerabilitiesText(top: seq<(string, int)>): string {
    Concat(Lines(CsvSeparator, top))
  }

  /** Number of decimal digits at the end of `s`. */
  function TrailingDigits(s: string): (n: nat)
    ensures n <= |s|
    ensures AllDigits(s[|s| - n..])
    ensures n < |s| ==> !IsDigit(s[|s| - n - 1])
    decreases |s|
  {
    if |s| == 0 || !IsDigit(s[|s| - 1]) then 0
    else
      var n := TrailingDigits(s[..|s| - 1]);
      DigitsExtend(s, n);
      n + 1
  }

  /** A run of digits ending right before a final digit extends to it. */
  lemma DigitsExtend(s: string, n: nat)
    requires 0 < |s| && n < |s|
    requires AllDigits(s[..|s| - 1][|s| - 1 - n..])
    requires IsDigit(s[|s| - 1])
    ensures AllDigits(s[|s| - (n + 1)..])
  {
    var t := s[|s| - (n + 1)..];
    forall i | 0 <= i < |t|
      ensures IsDigit(t[i])
    {
      if i < n {
        assert t[i] == s[..|s| - 1][|s| - 1 - n..][i];
      }
    }
  }

  /** Reads a line `key + sep + value + "\n"` back, splitting at the value,
      which is the trailing run of digits with an optional minus sign. */
  function ParseLine(sep: string, line: string): Option<(string, int)> {
    if |line| == 0 || line[|line| - 1] != '\n' then None
    else
      var body := line[..|line| - 1];
      var n := TrailingDigits(body);
      if n == 0 then None
      else ParseHead(sep, body[..|body| - n], ParseNat(body[|body| - n..]))
  }

  /** The part of a line before its digits: an optional minus sign, and
      before it the key followed by the separator. */
  function ParseHead(sep: string, rest: string, magnitude: nat): Option<(string, int)> {
    var negative := |rest| > 0 && rest[|rest| - 1] == '-';
    var head := if negative then rest[..|rest| - 1] else rest;
    if |head| >= |sep| && head[|head| - |sep|..] == sep then
      Some((head[..|head| - |sep|], if negative then -(magnitude as int) else magnitude))
    else None
  }

  lemma {:induction false} TrailingDigitsOf(a: string, d: string)
    requires AllDigits(d)
    requires |a| > 0 && !IsDigit(a[|a| - 1])
    ensures TrailingDigits(a + d) == |d|
    decreases |d|
  {
    if |d| == 0 {
      assert a + d == a;
    } else {
      assert (a + d)[..|a + d| - 1] == a + d[..|d| - 1];
      TrailingDigitsOf(a, d[..|d| - 1]);
    }
  }

  /** A line `prefix + digits + "\n"`, where `prefix` does not end in a
      digit, is read by splitting it right before `digits`. */
  lemma ParseLineParts(sep: string, prefix: string, digits: string)
    requires AllDigits(digits) && |digits| > 0
    requires |prefix| > 0 && !IsDigit(prefix[|prefix| - 1])
    ensures ParseLine(sep, prefix + digits + "\n") == ParseHead(sep, prefix, ParseNat(digits))
  {
    var line := prefix + digits + "\n";
    var body := line[..|line| - 1];
    assert body == prefix + digits;
    TrailingDigitsOf(prefix, digits);
    assert body[|body| - |digits|..] == digits;
    assert body[..|body| - |digits|] == prefix;
  }

  lemma EndsWithSep(key: string, sep: string)
    ensures |key + sep| >= |sep|
    ensures (key + sep)[|key + sep| - |sep|..] == sep
    ensures (key + sep)[..|key + sep| - |sep|] == key
  {
  }

  lemma ParseFormatLineNonNegative(sep: string, key: string, value: nat)
    requires sep == IssuesSeparator || sep == CsvSeparator
    ensures ParseLine(sep, FormatLine(sep, key, value)) == Some((key, value))
  {
    var digits := NatToString(value);
    ParseNatToString(value);
    var prefix := key + sep;
    assert FormatLine(sep, key, value) == prefix + digits + "\n";
    assert prefix[|prefix| - 1] == ' ';
    ParseLineParts(sep, prefix, digits);
    EndsWithSep(key, sep);
  }

  lemma ParseHeadNegative(sep: string, key: string, magnitude: nat)
    ensures ParseHead(sep, key + sep + "-", magnitude) == Some((key, -(magnitude as int)))
  {
    var rest := key + sep + "-";
    assert rest[..|rest| - 1] == key + sep;
    EndsWithSep(key, sep);
  }

  lemma FormatLineNegative(sep: string, key: string, value: int)
    requires value < 0
    ensures FormatLine(sep, key, value) == key + sep + "-" + NatToString(-value) + "\n"
  {
  }

  lemma ParseFormatLineNegative(sep: string, key: string, value: int)
    requires value < 0
    ensures ParseLine(sep, FormatLine(sep, key, value)) == Some((key, value))
  {
    var digits := NatToString(-value);
    var prefix := key + sep + "-";
    assert ParseLine(sep, FormatLine(sep, key, value)) == ParseHead(sep, prefix, ParseNat(digits)) by {
      FormatLineNegative(sep, key, value);
      assert prefix[|prefix| - 1] == '-';
      ParseLineParts(sep, prefix, digits);
    }
    assert ParseHead(sep, prefix, ParseNat(digits)) == Some((key, value)) by {
      ParseNatToString(-value);
      ParseHeadNegative(sep, key, -value);
    }
  }

  /** A file line reads back as the entry it was written from, whatever the
      key holds, for both separators. */
  lemma ParseFormatLine(sep: string, key: string, value: int)
    requires sep == IssuesSeparator || sep == CsvSeparator
    ensures ParseLine(sep, FormatLine(sep, key, value)) == Some((key, value))
  {
    if value < 0 {
      ParseFormatLineNegative(sep, key, value);
    } else {
      ParseFormatLineNonNegative(sep, key, value);
    }
  }

  /** The writes to the file are one newline-terminated line per entry of
      the list, in list order, each reading back as its entry. (A key that
      itself holds a newline makes the file text show more lines.) */
  lemma TopFileLines(sep: string, top: seq<(string, int)>)
    requires sep == IssuesSeparator || sep == CsvSeparator
    ensures |Lines(sep, top)| == |top|
    ensures forall i :: 0 <= i < |top| ==>
              ParseLine(sep, Lines(sep, top)[i]) == Some(top[i])
  {
    forall i | 0 <= i < |top|
      ensures ParseLine(sep, Lines(sep, top)[i]) == Some(top[i])
    {
      ParseFormatLine(sep, top[i].0, top[i].1);
    }
  }

  /** A written file read back: the text is cut at newlines; every piece
      but the last is a line, and the last piece must be empty, since each
      line ends in a newline. */
  function ReadTopFile(sep: string, text: string): Option<seq<(string, int)>> {
    var pieces := Split(text, '\n');
    if pieces[|pieces| - 1] != "" then None
    else ReadLines(sep, pieces[..|pieces| - 1])
  }

  /** Each piece with its newline put back, read as one entry. */
  function ReadLines(sep: string, pieces: seq<string>): Option<seq<(string, int)>>
    decreases |pieces|
  {
    if |pieces| == 0 then Some([])
    else match ParseLine(sep, pieces[0] + "\n")
      case None => None
      case Some(e) =>
        match ReadLines(sep, pieces[1..])
        case None => None
        case Some(rest) => Some([e] + rest)
  }

  /** The lines of the file without their newlines. */
  function Bodies(sep: string, top: seq<(string, int)>): seq<string> {
    seq(|top|, i requires 0 <= i < |top| => top[i].0 + sep + IntToString(top[i].1))
  }

  lemma NumberHasNoNewline(v: int)
    ensures '\n' !in IntToString(v)
  {
    var d := NatToString(if v < 0 then -v else v);
    assert forall i :: 0 <= i < |d| ==> IsDigit(d[i]);
    if v < 0 {
      assert IntToString(v) == "-" + d;
    }
  }

  /** Each piece followed by a newline. */
  function Terminated(bs: seq<string>): string
    decreases |bs|
  {
    if |bs| == 0 then "" else bs[0] + "\n" + Terminated(bs[1..])
  }

  /** Cutting newline-terminated pieces at newlines gives back the pieces,
      then one empty piece, as long as no piece holds a newline. */
  lemma {:induction false} SplitTerminated(bs: seq<string>)
    requires forall i :: 0 <= i < |bs| ==> '\n' !in bs[i]
    ensures Split(Terminated(bs), '\n') == bs + [""]
    decreases |bs|
  {
    if |bs| > 0 {
      var tail := bs[1..];
      assert forall i :: 0 <= i < |tail| ==> tail[i] == bs[i + 1];
      SplitAfter(bs[0], Terminated(tail), '\n');
      SplitTerminated(tail);
      ConsAppend(bs, "");
    }
  }

  lemma ConsAppend(bs: seq<string>, x: string)
    requires |bs| > 0
    ensures [bs[0]] + (bs[1..] + [x]) == bs + [x]
  {
  }

  /** The file text is the lines of `Bodies`, each with its newline. */
  lemma {:induction false} LinesTerminated(sep: string, top: seq<(string, int)>)
    ensures Concat(Lines(sep, top)) == Terminated(Bodies(sep, top))
    decreases |top|
  {
    if |top| > 0 {
      var tail := top[1..];
      assert Lines(sep, top)[1..] == Lines(sep, tail);
      assert Bodies(sep, top)[1..] == Bodies(sep, tail);
      LinesTerminated(sep, tail);
    }
  }

  /** The lines of a list, without their newlines, read back as the list. */
  lemma {:induction false} ReadLinesBodies(sep: string, top: seq<(string, int)>)
    requires sep == IssuesSeparator || sep == CsvSeparator
    ensures ReadLines(sep, Bodies(sep, top)) == Some(top)
    decreases |top|
  {
    if |top| > 0 {
      BodiesCons(sep, top);
      ReadLinesBodies(sep, top[1..]);
      FirstBodyReads(sep, top);
      ReadLinesStep(sep, Bodies(sep, top), top);
    }
  }

  lemma BodiesCons(sep: string, top: seq<(string, int)>)
    requires |top| > 0
    ensures |Bodies(sep, top)| > 0
    ensures Bodies(sep, top)[0] == top[0].0 + sep + IntToString(top[0].1)
    ensures Bodies(sep, top)[1..] == Bodies(sep, top[1..])
  {
  }

  lemma FirstBodyReads(sep: string, top: seq<(string, int)>)
    requires sep == IssuesSeparator || sep == CsvSeparator
    requires |top| > 0
    ensures |Bodies(sep, top)| > 0
    ensures ParseLine(sep, Bodies(sep, top)[0] + "\n") == Some(top[0])
  {
    var e := top[0];
    assert Bodies(sep, top)[0] + "\n" == FormatLine(sep, e.0, e.1);
    ParseFormatLine(sep, e.0, e.1);
  }

  lemma ReadLinesStep(sep: string, pieces: seq<string>, top: seq<(string, int)>)
    requires |pieces| > 0 && |top| > 0
    requires ParseLine(sep, pieces[0] + "\n") == Some(top[0])
    requires ReadLines(sep, pieces[1..]) == Some(top[1..])
    ensures ReadLines(sep, pieces) == Some(top)
  {
    ReadLinesCons(sep, pieces, top[0], top[1..]);
    assert top == [top[0]] + top[1..];
  }

  lemma ReadLinesCons(sep: string, pieces: seq<string>, e: (string, int), rest: seq<(string, int)>)
    requires |pieces| > 0
    requires ParseLine(sep, pieces[0] + "\n") == Some(e)
    requires ReadLines(sep, pieces[1..]) == Some(rest)
    ensures ReadLines(sep, pieces) == Some([e] + rest)
  {
  }

  /** The whole file text reads back as the list it was written from, when
      no key holds a newline. */
  lemma ReadTopFileRoundTrip(sep: string, top: seq<(string, int)>)
    requires sep == IssuesSeparator || sep == CsvSeparator
    requires forall i :: 0 <= i < |top| ==> '\n' !in top[i].0
    ensures ReadTopFile(sep, Concat(Lines(sep, top))) == Some(top)
  {
    var bs := Bodies(sep, top);
    forall i | 0 <= i < |top|
      ensures '\n' !in bs[i]
    {
      NumberHasNoNewline(top[i].1);
      assert '\n' !in sep;
    }
    LinesTerminated(sep, top);
    SplitTerminated(bs);
    var pieces := bs + [""];
    assert pieces[..|pieces| - 1] == bs;
    ReadLinesBodies(sep, top);
  }

  /** `top_issues.txt` and `top_vulnerabilities.csv` read back as the
      top-15 list of the table, when no description holds a newline. */
  lemma TopFilesReadBack(table: Table)
    requires forall d :: d in Flatten(table) ==> '\n' !in d
    ensures ReadTopFile(IssuesSeparator, TopIssuesText(Top15(table))) == Some(Top15(table))
    ensures ReadTopFile(CsvSeparator, TopVulnerabilitiesText(Top15(table))) == Some(Top15(table))
  {
    var f := ChallengeFrequency(table);
    var top := Top15(table);
    TopNamesAndCounts(table, 15);
    FrequenciesKeys(Flatten(table));
    forall i | 0 <= i < |top|
      ensures '\n' !in top[i].0
    {
      assert top[i].0 == Keys(f)[|f.items| - 1 - i];
      assert top[i].0 in Keys(f);
    }
    ReadTopFileRoundTrip(IssuesSeparator, top);
    ReadTopFileRoundTrip(CsvSeparator, top);
  }
}
