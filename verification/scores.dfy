/** Score-record extraction (`read_file`) and the table behind the stacked
    bar chart (`create_stacked_bar_graph`), both written out identically in
    Scripts/Graph.py, Scripts/Main.py and Analysis.py. */
module Scores {
  import opened Wrappers
  import opened OrderedDict
  import opened Sorting
  import opened Ranker

  /** One line of `Muncipalities.csv` after `json.loads`: the vendor's score
      record for one municipality. An absent JSON field is `None`. */
  datatype VendorRecord = VendorRecord(
    name: Option<string>,
    score: Option<int>,
    categoryScores: Option<map<string, int>>)

  /** The four name-to-number dicts `read_file` fills. */
  datatype ScoreMaps = ScoreMaps(overall: Dict<int>, email: Dict<int>, web: Dict<int>, network: Dict<int>)

  /** The fields `read_file` takes from one record. */
  datatype Extracted = Extracted(name: string, score: int, email: int, web: int, network: int)

  /** `cs[cat] if cat in cs else 0`: a missing category scores zero. */
  function CategoryOrZero(cs: map<string, int>, cat: string): int {
    if cat in cs then cs[cat] else 0
  }

  ghost predicate WellFormed(r: VendorRecord) {
    r.score.Some? && r.name.Some? && r.categoryScores.Some?
  }

  /** The body of the loop in `read_file` for one record: `data["score"]`,
      `data["name"]` and `data["categoryScores"]` raise when absent, in that
      order; an absent category inside `categoryScores` does not. */
  function Extract(r: VendorRecord): (x: Result<Extracted>)
    ensures x.Success? <==> WellFormed(r)
  {
    if r.score.None? then Failure(KeyError("score"))
    else if r.name.None? then Failure(KeyError("name"))
    else if r.categoryScores.None? then Failure(KeyError("categoryScores"))
    else
      var cs := r.categoryScores.value;
      Success(Extracted(r.name.value, r.score.value,
                        CategoryOrZero(cs, "emailSecurity"),
                        CategoryOrZero(cs, "websiteSecurity"),
                        CategoryOrZero(cs, "networkSecurity")))
  }

  function Apply(m: ScoreMaps, x: Extracted): ScoreMaps {
    ScoreMaps(Put(m.overall, x.name, x.score), Put(m.email, x.name, x.email),
              Put(m.web, x.name, x.web), Put(m.network, x.name, x.network))
  }

  function ReadInto(m: ScoreMaps, records: seq<VendorRecord>): Result<ScoreMaps>
    decreases |records|
  {
    if |records| == 0 then Success(m)
    else match Extract(records[0])
      case Failure(e) => Failure(e)
      case Success(x) => ReadInto(Apply(m, x), records[1..])
  }

  /** `read_file`, starting from the four empty dicts of the constructor. */
  function ReadFile(records: seq<VendorRecord>): Result<ScoreMaps> {
    ReadInto(ScoreMaps(Empty(), Empty(), Empty(), Empty()), records)
  }

  /** The four dicts share one key list, and are genuine dicts. */
  ghost predicate SharedKeys(m: ScoreMaps) {
    && Keys(m.email) == Keys(m.overall)
    && Keys(m.web) == Keys(m.overall)
    && Keys(m.network) == Keys(m.overall)
    && Valid(m.overall) && Valid(m.email) && Valid(m.web) && Valid(m.network)
  }

  /** Reading fails exactly when some record lacks `score`, `name` or
      `categoryScores`, and then with the error of the first such record. */
  lemma {:induction false} ReadIntoFails(m: ScoreMaps, records: seq<VendorRecord>)
    ensures ReadInto(m, records).Success? <==> forall i :: 0 <= i < |records| ==> WellFormed(records[i])
    ensures ReadInto(m, records).Failure? ==>
              exists i :: 0 <= i < |records| && Extract(records[i]).Failure?
                && ReadInto(m, records).error == Extract(records[i]).error
                && forall j :: 0 <= j < i ==> WellFormed(records[j])
    decreases |records|
  {
    if |records| > 0 {
      match Extract(records[0])
      case Failure(e) =>
      case Success(x) =>
        ReadIntoFails(Apply(m, x), records[1..]);
        if ReadInto(m, records).Failure? {
          var i :| 0 <= i < |records[1..]| && Extract(records[1..][i]).Failure?
                   && ReadInto(Apply(m, x), records[1..]).error == Extract(records[1..][i]).error
                   && forall j :: 0 <= j < i ==> WellFormed(records[1..][j]);
          assert records[1..][i] == records[i + 1];
          forall j | 0 <= j < i + 1 ensures WellFormed(records[j]) {
            if j > 0 { assert records[1..][j - 1] == records[j]; }
          }
        }
        forall i | 0 <= i < |records| - 1 ensures records[1..][i] == records[i + 1] { }
    }
  }

  /** After reading, the four dicts have one key list: the names of the
      records, each once. */
  lemma {:induction false} ReadIntoKeys(m: ScoreMaps, records: seq<VendorRecord>)
    requires SharedKeys(m)
    requires ReadInto(m, records).Success?
    ensures SharedKeys(ReadInto(m, records).value)
    ensures forall k :: k in Keys(ReadInto(m, records).value.overall) <==>
              (k in Keys(m.overall) || exists i :: 0 <= i < |records| && records[i].name == Some(k))
    decreases |records|
  {
    if |records| > 0 {
      var x := Extract(records[0]).value;
      var m' := Apply(m, x);
      PutValid(m.overall, x.name, x.score);
      PutValid(m.email, x.name, x.email);
      PutValid(m.web, x.name, x.web);
      PutValid(m.network, x.name, x.network);
      ReadIntoKeys(m', records[1..]);
      forall k
        ensures k in Keys(ReadInto(m, records).value.overall) <==>
                (k in Keys(m.overall) || exists i :: 0 <= i < |records| && records[i].name == Some(k))
      {
        if exists i :: 0 <= i < |records| && records[i].name == Some(k) {
          var i :| 0 <= i < |records| && records[i].name == Some(k);
          if i > 0 { assert records[1..][i - 1] == records[i]; }
        }
        if exists i :: 0 <= i < |records[1..]| && records[1..][i].name == Some(k) {
          var i :| 0 <= i < |records[1..]| && records[1..][i].name == Some(k);
          assert records[i + 1].name == Some(k);
        }
      }
    }
  }

  /** Reading records whose names avoid `k` leaves what `k` reads unchanged. */
  lemma {:induction false} ReadIntoFrame(m: ScoreMaps, records: seq<VendorRecord>, k: string)
    requires ReadInto(m, records).Success?
    requires forall j :: 0 <= j < |records| ==> records[j].name != Some(k)
    ensures var r := ReadInto(m, records).value;
            && Lookup(r.overall, k) == Lookup(m.overall, k)
            && Lookup(r.email, k) == Lookup(m.email, k)
            && Lookup(r.web, k) == Lookup(m.web, k)
            && Lookup(r.network, k) == Lookup(m.network, k)
    decreases |records|
  {
    if |records| > 0 {
      var x := Extract(records[0]).value;
      PutLookup(m.overall, x.name, x.score, k);
      PutLookup(m.email, x.name, x.email, k);
      PutLookup(m.web, x.name, x.web, k);
      PutLookup(m.network, x.name, x.network, k);
      assert forall j :: 0 <= j < |records| - 1 ==> records[1..][j] == records[j + 1];
      ReadIntoFrame(Apply(m, x), records[1..], k);
    }
  }

  /** A name's entries come from the last record carrying that name, with
      absent categories read as zero. */
  lemma {:induction false} ReadIntoLastWins(m: ScoreMaps, records: seq<VendorRecord>, i: nat)
    requires ReadInto(m, records).Success?
    requires i < |records|
    requires forall j :: i < j < |records| ==> records[j].name != records[i].name
    ensures WellFormed(records[i])
    ensures var r := ReadInto(m, records).value;
            var k := records[i].name.value;
            var cs := records[i].categoryScores.value;
            && Lookup(r.overall, k) == Some(records[i].score.value)
            && Lookup(r.email, k) == Some(CategoryOrZero(cs, "emailSecurity"))
            && Lookup(r.web, k) == Some(CategoryOrZero(cs, "websiteSecurity"))
            && Lookup(r.network, k) == Some(CategoryOrZero(cs, "networkSecurity"))
    decreases |records|
  {
    ReadIntoFails(m, records);
    var x := Extract(records[0]).value;
    assert forall j :: 0 <= j < |records| - 1 ==> records[1..][j] == records[j + 1];
    if i == 0 {
      var k := x.name;
      PutLookup(m.overall, k, x.score, k);
      PutLookup(m.email, k, x.email, k);
      PutLookup(m.web, k, x.web, k);
      PutLookup(m.network, k, x.network, k);
      ReadIntoFrame(Apply(m, x), records[1..], k);
    } else {
      ReadIntoLastWins(Apply(m, x), records[1..], i - 1);
    }
  }

  /** `read_file` over a whole file: it fails exactly on a record without
      `score`, `name` or `categoryScores`; otherwise the four dicts share one
      key list (the record names), and each name carries the numbers of its
      last record, a missing category reading as 0. */
  lemma ReadFileSpec(records: seq<VendorRecord>)
    ensures ReadFile(records).Success? <==> forall i :: 0 <= i < |records| ==> WellFormed(records[i])
    ensures ReadFile(records).Success? ==>
              && SharedKeys(ReadFile(records).value)
              && forall k :: k in Keys(ReadFile(records).value.overall) <==>
                   exists i :: 0 <= i < |records| && records[i].name == Some(k)
    ensures ReadFile(records).Success? ==>
              forall i :: 0 <= i < |records| && (forall j :: i < j < |records| ==> records[j].name != records[i].name) ==>
                var r := ReadFile(records).value;
                var cs := records[i].categoryScores.value;
                && Lookup(r.overall, records[i].name.value) == Some(records[i].score.value)
                && Lookup(r.email, records[i].name.value) == Some(CategoryOrZero(cs, "emailSecurity"))
                && Lookup(r.web, records[i].name.value) == Some(CategoryOrZero(cs, "websiteSecurity"))
                && Lookup(r.network, records[i].name.value) == Some(CategoryOrZero(cs, "networkSecurity"))
  {
    var m0 := ScoreMaps(Empty(), Empty(), Empty(), Empty());
    ReadIntoFails(m0, records);
    if ReadFile(records).Success? {
      ReadIntoKeys(m0, records);
      forall i | 0 <= i < |records| && (forall j :: i < j < |records| ==> records[j].name != records[i].name)
        ensures var r := ReadFile(records).value;
                var cs := records[i].categoryScores.value;
                && Lookup(r.overall, records[i].name.value) == Some(records[i].score.value)
                && Lookup(r.email, records[i].name.value) == Some(CategoryOrZero(cs, "emailSecurity"))
                && Lookup(r.web, records[i].name.value) == Some(CategoryOrZero(cs, "websiteSecurity"))
                && Lookup(r.network, records[i].name.value) == Some(CategoryOrZero(cs, "networkSecurity"))
      {
        ReadIntoLastWins(m0, records, i);
      }
    }
  }

  /** A record `{score: 700, categoryScores: {emailSecurity: 90}}` gives
      overall 700, email 90, and zero web and network scores. */
  lemma MissingCategoriesReadAsZero(name: string)
    ensures var r := ReadFile([VendorRecord(Some(name), Some(700), Some(map["emailSecurity" := 90]))]);
            && r.Success?
            && Lookup(r.value.overall, name) == Some(700)
            && Lookup(r.value.email, name) == Some(90)
            && Lookup(r.value.web, name) == Some(0)
            && Lookup(r.value.network, name) == Some(0)
  {
    var records := [VendorRecord(Some(name), Some(700), Some(map["emailSecurity" := 90]))];
    ReadFileSpec(records);
  }

  /** The frame `create_stacked_bar_graph` plots: rows indexed by the ranked
      score dict's keys, one column per ranked category dict. */
  datatype StackedTable = StackedTable(index: seq<string>, email: seq<int>, web: seq<int>, network: seq<int>)

  /** `create_stacked_bar_graph` up to the plot: rank all four dicts, then
      build the frame from the three category value lists and the score
      keys; pandas refuses columns whose length differs from the index. */
  function StackedBarTable(score: Dict<int>, email: Dict<int>, web: Dict<int>, network: Dict<int>): Result<StackedTable> {
    var index := Keys(SortDictionaries(score));
    var e := Values(SortDictionaries(email));
    var w := Values(SortDictionaries(web));
    var n := Values(SortDictionaries(network));
    if |e| == |index| && |w| == |index| && |n| == |index| then Success(StackedTable(index, e, w, n))
    else Failure(ValueError)
  }

  /** The frame exists exactly when the four dicts have the same size; its
      rows are the score dict's keys in their original order, and each
      column is the ascending arrangement of that category's values, so row
      i shows the i-th smallest value of each category, not the values of
      the municipality that labels the row. */
  lemma StackedBarTableShape(score: Dict<int>, email: Dict<int>, web: Dict<int>, network: Dict<int>)
    requires Valid(score) && Valid(email) && Valid(web) && Valid(network)
    ensures StackedBarTable(score, email, web, network).Success? <==>
              |email.items| == |score.items| && |web.items| == |score.items| && |network.items| == |score.items|
    ensures StackedBarTable(score, email, web, network).Success? ==>
              var t := StackedBarTable(score, email, web, network).value;
              && t.index == Keys(score)
              && t.email == Sort(Values(email)) && SortedAsc(t.email)
              && t.web == Sort(Values(web)) && SortedAsc(t.web)
              && t.network == Sort(Values(network)) && SortedAsc(t.network)
              && multiset(t.email) == multiset(Values(email))
              && multiset(t.web) == multiset(Values(web))
              && multiset(t.network) == multiset(Values(network))
  {
    SortDictionariesPairs(score);
    SortDictionariesPairs(email);
    SortDictionariesPairs(web);
    SortDictionariesPairs(network);
  }

  /** The dicts `read_file` produces always make a frame, one row per
      distinct municipality name. */
  lemma StackedBarTableOfReadFile(records: seq<VendorRecord>)
    requires ReadFile(records).Success?
    ensures var m := ReadFile(records).value;
            && StackedBarTable(m.overall, m.email, m.web, m.network).Success?
            && StackedBarTable(m.overall, m.email, m.web, m.network).value.index == Keys(m.overall)
  {
    ReadFileSpec(records);
    var m := ReadFile(records).value;
    StackedBarTableShape(m.overall, m.email, m.web, m.network);
  }
}
