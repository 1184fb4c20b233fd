/** Scripts/FetchData.py without the network and the database client:
    the insert-if-absent helper `__send_to_mongodb`, `query_db`, `clear_db`,
    the vulnerability table of `__parse_vulnerabilities`, and the risk
    filtering and date rewriting of `risk_timeseries`. Each API response is
    an input; each collection is a `KeyedStore.Store` keyed by `name`. */
module FetchData {
  import opened Wrappers
  import opened OrderedDict
  import opened KeyedStore
  import opened Api
  import opened Text

  /** Which collection `__send_to_mongodb` was handed. The helper knows how
      to shape documents for the scores and vulnerabilities collections
      only. */
  datatype CollectionKind = Scores | Vulnerabilities | Other

  /** `{"Vulnerability": ..., "Severity": ...}` */
  datatype VulnerabilityRow = VulnerabilityRow(vulnerability: string, severity: string)

  /** What callers pass as `data`: the vendor JSON of one municipality
      (kept abstract as `J`), or a one-city table `{municipality: rows}`. */
  datatype Payload<J> = VendorJson(json: J) | CityTable(table: Dict<seq<VulnerabilityRow>>)

  /** `{"name": ..., "data": ...}` or `{"name": ..., "vulnerabilities": ...}` */
  datatype Document<J> =
    | ScoreDocument(name: string, data: Payload<J>)
    | VulnerabilityDocument(name: string, vulnerabilities: seq<VulnerabilityRow>)

  /** `data_to_insert`, or `None` when building it raises: `data[name]` on
      a table without `name`, or no assignment at all for another
      collection (an unbound local). `__send_to_mongodb` swallows both. */
  function DocumentFor<J>(kind: CollectionKind, name: string, data: Payload<J>): Option<Document<J>> {
    match kind
    case Scores => Some(ScoreDocument(name, data))
    case Vulnerabilities =>
      if data.CityTable? && name in Keys(data.table) then
        Some(VulnerabilityDocument(name, Lookup(data.table, name).value))
      else None
    case Other => None
  }

  /** `__send_to_mongodb(data, name, cluster)` */
  function SendToMongo<J>(s: Store<Document<J>>, kind: CollectionKind, name: string, data: Payload<J>): (r: Store<Document<J>>)
    ensures name in s ==> r == s
    ensures name !in s && kind == Scores ==> r == s[name := ScoreDocument(name, data)]
    ensures name !in s && kind == Vulnerabilities ==>
              if data.CityTable? && Lookup(data.table, name).Some? then
                r == s[name := VulnerabilityDocument(name, Lookup(data.table, name).value)]
              else r == s
    ensures kind == Other ==> r == s
  {
    match DocumentFor(kind, name, data)
    case Some(doc) => InsertIfAbsent(s, name, doc).0
    case None => s
  }

  /** `query_db(collection, name)` */
  function QueryDb<J>(s: Store<Document<J>>, name: string): Option<Document<J>> {
    Find(s, name)
  }

  /** `clear_db(collection)`: afterwards no name finds anything. */
  function ClearDb<J>(s: Store<Document<J>>): (r: Store<Document<J>>)
    ensures forall name :: QueryDb(r, name) == None
  {
    Clear(s)
  }

  /** Every document sits under its own `name`. */
  ghost predicate WellKeyed<J>(s: Store<Document<J>>) {
    forall k :: k in s ==> s[k].name == k
  }

  lemma SendToMongoWellKeyed<J>(s: Store<Document<J>>, kind: CollectionKind, name: string, data: Payload<J>)
    requires WellKeyed(s)
    ensures WellKeyed(SendToMongo(s, kind, name, data))
  {
  }

  /** One `__send_to_mongodb` per item, in order, into one collection. */
  function SendAll<J>(s: Store<Document<J>>, kind: CollectionKind, items: seq<(string, Payload<J>)>): Store<Document<J>>
    decreases |items|
  {
    if |items| == 0 then s else SendAll(SendToMongo(s, kind, items[0].0, items[0].1), kind, items[1..])
  }

  /** Sending this item again can change nothing: its name is taken, or no
      document can be built from it. */
  ghost predicate Settled<J>(s: Store<Document<J>>, kind: CollectionKind, item: (string, Payload<J>)) {
    item.0 in s || DocumentFor(kind, item.0, item.1).None?
  }

  lemma {:induction false} SendAllGrows<J>(s: Store<Document<J>>, kind: CollectionKind, items: seq<(string, Payload<J>)>)
    ensures s.Keys <= SendAll(s, kind, items).Keys
    decreases |items|
  {
    if |items| > 0 {
      SendAllGrows(SendToMongo(s, kind, items[0].0, items[0].1), kind, items[1..]);
    }
  }

  lemma {:induction false} SendAllSettles<J>(s: Store<Document<J>>, kind: CollectionKind, items: seq<(string, Payload<J>)>)
    ensures forall i :: 0 <= i < |items| ==> Settled(SendAll(s, kind, items), kind, items[i])
    decreases |items|
  {
    if |items| > 0 {
      var s1 := SendToMongo(s, kind, items[0].0, items[0].1);
      SendAllSettles(s1, kind, items[1..]);
      SendAllGrows(s1, kind, items[1..]);
      forall i | 0 <= i < |items| ensures Settled(SendAll(s, kind, items), kind, items[i]) {
        if i > 0 { assert items[i] == items[1..][i - 1]; }
      }
    }
  }

  lemma {:induction false} SendAllOfSettled<J>(s: Store<Document<J>>, kind: CollectionKind, items: seq<(string, Payload<J>)>)
    requires forall i :: 0 <= i < |items| ==> Settled(s, kind, items[i])
    ensures SendAll(s, kind, items) == s
    decreases |items|
  {
    if |items| > 0 {
      assert Settled(s, kind, items[0]);
      assert forall i :: 0 <= i < |items| - 1 ==> items[1..][i] == items[i + 1];
      SendAllOfSettled(s, kind, items[1..]);
    }
  }

  /** Re-running a whole batch of sends changes nothing: the second pass
      meets an existing document, or the same swallowed error, every time. */
  lemma SendAllIdempotent<J>(s: Store<Document<J>>, kind: CollectionKind, items: seq<(string, Payload<J>)>)
    ensures SendAll(SendAll(s, kind, items), kind, items) == SendAll(s, kind, items)
  {
    SendAllSettles(s, kind, items);
    SendAllOfSettled(SendAll(s, kind, items), kind, items);
  }

  // ---------------------------------------------------------------------
  // __parse_vulnerabilities

  /** The rows built from the considered vulnerabilities, in order:
      `['cve']['severity']` is read before `['cve']['description']`. */
  function VulnerabilityRows(vs: seq<Vulnerability>): Result<seq<VulnerabilityRow>>
    decreases |vs|
  {
    if |vs| == 0 then Success([])
    else if vs[0].cve.None? then Failure(KeyError("cve"))
    else if vs[0].cve.value.severity.None? then Failure(KeyError("severity"))
    else if vs[0].cve.value.description.None? then Failure(KeyError("description"))
    else match VulnerabilityRows(vs[1..])
      case Failure(e) => Failure(e)
      case Success(rest) =>
        Success([VulnerabilityRow(vs[0].cve.value.description.value, vs[0].cve.value.severity.value)] + rest)
  }

  ghost predicate HasCve(v: Vulnerability) {
    v.cve.Some? && v.cve.value.severity.Some? && v.cve.value.description.Some?
  }

  /** The rows exist exactly when every entry has a severity and a
      description, and then row i holds entry i's description and severity. */
  lemma {:induction false} VulnerabilityRowsSpec(vs: seq<Vulnerability>)
    ensures VulnerabilityRows(vs).Success? <==> forall i :: 0 <= i < |vs| ==> HasCve(vs[i])
    ensures VulnerabilityRows(vs).Success? ==>
              && |VulnerabilityRows(vs).value| == |vs|
              && forall i :: 0 <= i < |vs| ==>
                   VulnerabilityRows(vs).value[i] ==
                     VulnerabilityRow(vs[i].cve.value.description.value, vs[i].cve.value.severity.value)
    decreases |vs|
  {
    if |vs| > 0 {
      VulnerabilityRowsSpec(vs[1..]);
      assert forall i :: 0 <= i < |vs| - 1 ==> vs[1..][i] == vs[i + 1];
    }
  }

  /** One municipality: the status assertion, the `vulnerabilities` field,
      then the rows of every entry but the last. */
  function CityVulnerabilities(resp: VulnerabilityResponse): Result<seq<VulnerabilityRow>> {
    if resp.status != OK then Failure(AssertionError(resp.status))
    else if resp.vulnerabilities.None? then Failure(KeyError("vulnerabilities"))
    else VulnerabilityRows(AllButLast(resp.vulnerabilities.value))
  }

  /** The collection after a run, and what the run returned or raised. */
  datatype Run<J> = Run(store: Store<Document<J>>, result: Result<seq<Dict<seq<VulnerabilityRow>>>>)

  /** The loop of `__parse_vulnerabilities` over `(municipality, response)`
      pairs: each municipality's rows go to the vulnerabilities collection
      as they are built; the first error stops the loop with what was
      stored so far; the returned table is never filled. */
  function ParseVulnerabilitiesLoop<J>(s: Store<Document<J>>, cities: seq<(string, VulnerabilityResponse)>): Run<J>
    decreases |cities|
  {
    if |cities| == 0 then Run(s, Success([]))
    else match CityVulnerabilities(cities[0].1)
      case Failure(e) => Run(s, Failure(e))
      case Success(rows) =>
        var city := cities[0].0;
        ParseVulnerabilitiesLoop(SendToMongo(s, Vulnerabilities, city, CityTable(Single(city, rows))), cities[1..])
  }

  /** `__parse_vulnerabilities()` over the municipalities dict. */
  function ParseVulnerabilities<J>(s: Store<Document<J>>, responses: Dict<VulnerabilityResponse>): Run<J> {
    ParseVulnerabilitiesLoop(s, responses.items)
  }

  ghost predicate CityOk(resp: VulnerabilityResponse) {
    CityVulnerabilities(resp).Success?
  }

  /** Municipalities `0..i` all come back readable, so the loop reaches the
      `i`-th and stores it. */
  ghost predicate OkThrough(cities: seq<(string, VulnerabilityResponse)>, i: nat)
    requires i < |cities|
  {
    forall j :: 0 <= j <= i ==> CityOk(cities[j].1)
  }

  /** Whether or not the run succeeds, the collection afterwards holds the
      documents it held before plus one under each municipality the loop
      reached before the first bad response, and nothing else. */
  lemma {:induction false} ParseVulnerabilitiesLoopFrame<J>(s: Store<Document<J>>, cities: seq<(string, VulnerabilityResponse)>)
    ensures forall k :: k in s ==> k in ParseVulnerabilitiesLoop(s, cities).store
    ensures forall k :: k in ParseVulnerabilitiesLoop(s, cities).store ==>
              k in s || exists i :: 0 <= i < |cities| && cities[i].0 == k && OkThrough(cities, i)
    ensures forall i :: 0 <= i < |cities| && OkThrough(cities, i) ==>
              cities[i].0 in ParseVulnerabilitiesLoop(s, cities).store
    decreases |cities|
  {
    if |cities| > 0 {
      var tail := cities[1..];
      match CityVulnerabilities(cities[0].1)
      case Failure(e) =>
        forall i | 0 <= i < |cities|
          ensures !OkThrough(cities, i)
        {
          assert !CityOk(cities[0].1);
        }
      case Success(rows) =>
        var city := cities[0].0;
        var s1 := SendToMongo(s, Vulnerabilities, city, CityTable(Single(city, rows)));
        assert Keys(Single(city, rows)) == [city];
        assert forall k :: k in s1 ==> k in s || k == city;
        assert city in s1;
        ParseVulnerabilitiesLoopFrame(s1, tail);
        var st := ParseVulnerabilitiesLoop(s, cities).store;
        assert st == ParseVulnerabilitiesLoop(s1, tail).store;
        assert OkThrough(cities, 0);
        forall k | k in st
          ensures k in s || exists i :: 0 <= i < |cities| && cities[i].0 == k && OkThrough(cities, i)
        {
          if k !in s1 {
            var i :| 0 <= i < |tail| && tail[i].0 == k && OkThrough(tail, i);
            assert cities[i + 1] == tail[i];
            forall j | 0 <= j <= i + 1
              ensures CityOk(cities[j].1)
            {
              if j > 0 {
                assert cities[j] == tail[j - 1];
              }
            }
            assert OkThrough(cities, i + 1);
          } else if k !in s {
            assert k == city;
          }
        }
        forall i | 0 <= i < |cities| && OkThrough(cities, i)
          ensures cities[i].0 in st
        {
          if i == 0 {
            assert cities[0].0 in s1;
          } else {
            forall j | 0 <= j <= i - 1
              ensures CityOk(tail[j].1)
            {
              assert tail[j] == cities[j + 1];
            }
            assert OkThrough(tail, i - 1);
            assert tail[i - 1] == cities[i];
          }
        }
    }
  }

  /** Success or not, documents already stored never change, and each
      municipality before the first bad response that was new to the
      collection gets the document holding the rows of all its
      vulnerabilities but the last. */
  lemma {:induction false} ParseVulnerabilitiesLoopDocuments<J>(s: Store<Document<J>>, cities: seq<(string, VulnerabilityResponse)>)
    requires Distinct(seq(|cities|, i requires 0 <= i < |cities| => cities[i].0))
    ensures forall k :: k in s ==> k in ParseVulnerabilitiesLoop(s, cities).store && ParseVulnerabilitiesLoop(s, cities).store[k] == s[k]
    ensures forall i :: 0 <= i < |cities| && OkThrough(cities, i) && cities[i].0 !in s ==>
                && cities[i].0 in ParseVulnerabilitiesLoop(s, cities).store
                && ParseVulnerabilitiesLoop(s, cities).store[cities[i].0]
                   == VulnerabilityDocument(cities[i].0, CityVulnerabilities(cities[i].1).value)
    decreases |cities|
  {
    if |cities| > 0 {
      var tail := cities[1..];
      assert forall i :: 0 <= i < |tail| ==> tail[i] == cities[i + 1];
      var names := seq(|cities|, i requires 0 <= i < |cities| => cities[i].0);
      assert seq(|tail|, i requires 0 <= i < |tail| => tail[i].0) == names[1..];
      match CityVulnerabilities(cities[0].1)
      case Failure(e) =>
        forall i | 0 <= i < |cities|
          ensures !OkThrough(cities, i)
        {
          assert !CityOk(cities[0].1);
        }
      case Success(rows) =>
        var city := cities[0].0;
        var s1 := SendToMongo(s, Vulnerabilities, city, CityTable(Single(city, rows)));
        assert Keys(Single(city, rows)) == [city];
        assert Lookup(Single(city, rows), city) == Some(rows);
        ParseVulnerabilitiesLoopDocuments(s1, tail);
        var r := ParseVulnerabilitiesLoop(s, cities);
        forall i | 0 <= i < |cities| && OkThrough(cities, i) && cities[i].0 !in s
          ensures cities[i].0 in r.store
          ensures r.store[cities[i].0] == VulnerabilityDocument(cities[i].0, CityVulnerabilities(cities[i].1).value)
        {
          if i > 0 {
            assert names[i] != names[0];
            forall j | 0 <= j <= i - 1
              ensures CityOk(tail[j].1)
            {
              assert tail[j] == cities[j + 1];
            }
            assert OkThrough(tail, i - 1);
            assert tail[i - 1] == cities[i];
          }
        }
    }
  }

  /** The run succeeds exactly when every municipality's response does, and
      then returns the empty list; documents already stored never change;
      success or not, each municipality before the first bad response that
      was new to the collection gets the document holding the rows of all
      its vulnerabilities but the last, and no other key is added. */
  lemma {:induction false} ParseVulnerabilitiesLoopSpec<J>(s: Store<Document<J>>, cities: seq<(string, VulnerabilityResponse)>)
    requires Distinct(seq(|cities|, i requires 0 <= i < |cities| => cities[i].0))
    ensures ParseVulnerabilitiesLoop(s, cities).result.Success? <==> forall i :: 0 <= i < |cities| ==> CityOk(cities[i].1)
    ensures ParseVulnerabilitiesLoop(s, cities).result.Success? ==> ParseVulnerabilitiesLoop(s, cities).result.value == []
    ensures forall k :: k in s ==> k in ParseVulnerabilitiesLoop(s, cities).store && ParseVulnerabilitiesLoop(s, cities).store[k] == s[k]
    ensures forall i :: 0 <= i < |cities| && OkThrough(cities, i) && cities[i].0 !in s ==>
                && cities[i].0 in ParseVulnerabilitiesLoop(s, cities).store
                && ParseVulnerabilitiesLoop(s, cities).store[cities[i].0]
                   == VulnerabilityDocument(cities[i].0, CityVulnerabilities(cities[i].1).value)
    ensures forall k :: k in ParseVulnerabilitiesLoop(s, cities).store ==>
              k in s || exists i :: 0 <= i < |cities| && cities[i].0 == k && OkThrough(cities, i)
    ensures forall i :: 0 <= i < |cities| && OkThrough(cities, i) ==>
              cities[i].0 in ParseVulnerabilitiesLoop(s, cities).store
    decreases |cities|
  {
    ParseVulnerabilitiesLoopFrame(s, cities);
    ParseVulnerabilitiesLoopDocuments(s, cities);
    if |cities| > 0 {
      var tail := cities[1..];
      assert forall i :: 0 <= i < |tail| ==> tail[i] == cities[i + 1];
      var names := seq(|cities|, i requires 0 <= i < |cities| => cities[i].0);
      assert seq(|tail|, i requires 0 <= i < |tail| => tail[i].0) == names[1..];
      match CityVulnerabilities(cities[0].1)
      case Failure(e) =>
      case Success(rows) =>
        var city := cities[0].0;
        ParseVulnerabilitiesLoopSpec(SendToMongo(s, Vulnerabilities, city, CityTable(Single(city, rows))), tail);
    }
  }

  // ---------------------------------------------------------------------
  // risk_timeseries

  /** `{"Risk", "Date", "Severity", "Category", "Name"}` */
  datatype RiskRow = RiskRow(risk: string, date: string, severity: string, category: string, name: string)

  /** `data.get(field, None)` is truthy: present and non-empty. */
  predicate Present(f: Option<string>) {
    f.Some? && |f.value| > 0
  }

  /** None of the four fields the filter looks at is missing or empty. */
  predicate Complete(r: Risk) {
    Present(r.riskSubtype) && Present(r.severity) && Present(r.category) && Present(r.description)
  }

  /** `firstDetected.split("-")[0]` */
  function Year(firstDetected: string): string {
    Split(firstDetected, '-')[0]
  }

  /** `parts[1] + "-" + parts[2][0:2] + "-" + parts[0]` for the pieces of
      `firstDetected` between dashes; an IndexError with fewer than three. */
  function DateOf(firstDetected: string): Result<string> {
    var parts := Split(firstDetected, '-');
    if |parts| < 3 then Failure(IndexError)
    else
      var day := if |parts[2]| < 2 then parts[2] else parts[2][..2];
      Success(parts[1] + "-" + day + "-" + parts[0])
  }

  /** The row for one risk: `None` when it is skipped. */
  function RowOf(city: string, r: Risk): Result<Option<RiskRow>> {
    if !Complete(r) then Success(None)
    else if r.firstDetected.None? then Failure(KeyError("firstDetected"))
    else if Year(r.firstDetected.value) == "2021" then Success(None)
    else match DateOf(r.firstDetected.value)
      case Failure(e) => Failure(e)
      case Success(date) =>
        if r.risk.None? then Failure(KeyError("risk"))
        else Success(Some(RiskRow(r.risk.value, date, r.severity.value, r.category.value, city)))
  }

  function CityRows(city: string, rs: seq<Risk>): Result<seq<RiskRow>>
    decreases |rs|
  {
    if |rs| == 0 then Success([])
    else match RowOf(city, rs[0])
      case Failure(e) => Failure(e)
      case Success(row) =>
        match CityRows(city, rs[1..])
        case Failure(e) => Failure(e)
        case Success(rest) => Success((if row.Some? then [row.value] else []) + rest)
  }

  /** One city of `risk_timeseries`: `['risks']`, then every risk but the last. */
  function CityRisks(city: string, resp: RiskResponse): Result<seq<RiskRow>> {
    if resp.risks.None? then Failure(KeyError("risks"))
    else CityRows(city, AllButLast(resp.risks.value))
  }

  function TimeseriesLoop(cities: seq<(string, RiskResponse)>): Result<seq<RiskRow>>
    decreases |cities|
  {
    if |cities| == 0 then Success([])
    else match CityRisks(cities[0].0, cities[0].1)
      case Failure(e) => Failure(e)
      case Success(rows) =>
        match TimeseriesLoop(cities[1..])
        case Failure(e) => Failure(e)
        case Success(rest) => Success(rows + rest)
  }

  /** `insert_many(rows)`: pymongo refuses an empty list with a TypeError. */
  function StoreRisks(collection: seq<RiskRow>, rows: seq<RiskRow>): (r: Result<seq<RiskRow>>)
    ensures r.Success? <==> |rows| > 0
    ensures r.Success? ==> |r.value| == |collection| + |rows|
    ensures r.Success? ==> r.value[..|collection|] == collection && r.value[|collection|..] == rows
  {
    if |rows| == 0 then Failure(TypeError) else Success(collection + rows)
  }

  /** `risk_timeseries()`: rows for every city in dict order, then one
      `insert_many` into the risks collection. */
  function RiskTimeseries(responses: Dict<RiskResponse>, collection: seq<RiskRow>): Result<seq<RiskRow>> {
    match TimeseriesLoop(responses.items)
    case Failure(e) => Failure(e)
    case Success(rows) => StoreRisks(collection, rows)
  }

  /** The reference rule: a risk yields a row when its four fields are
      present and it was not first detected in 2021. */
  ghost predicate Kept(r: Risk) {
    Complete(r) && r.firstDetected.Some? && Year(r.firstDetected.value) != "2021"
  }

  /** A risk the loop can get past without raising. */
  ghost predicate Readable(r: Risk) {
    Complete(r) ==> r.firstDetected.Some? && (Kept(r) ==> |Split(r.firstDetected.value, '-')| >= 3 && r.risk.Some?)
  }

  /** The row of a kept, readable risk. */
  function Shape(city: string, r: Risk): RiskRow
    requires Kept(r) && Readable(r)
  {
    RiskRow(r.risk.value, DateOf(r.firstDetected.value).value, r.severity.value, r.category.value, city)
  }

  ghost function KeptRisks(rs: seq<Risk>): (ks: seq<Risk>)
    ensures |ks| <= |rs|
    ensures forall i :: 0 <= i < |ks| ==> Kept(ks[i]) && ks[i] in rs
    decreases |rs|
  {
    if |rs| == 0 then [] else (if Kept(rs[0]) then [rs[0]] else []) + KeptRisks(rs[1..])
  }

  /** The single pass of `risk_timeseries` over one city equals "filter the
      risks by the reference rule, then shape each survivor", and it raises
      exactly when some risk is unreadable. */
  lemma {:induction false} CityRowsSpec(city: string, rs: seq<Risk>)
    ensures CityRows(city, rs).Success? <==> forall i :: 0 <= i < |rs| ==> Readable(rs[i])
    ensures CityRows(city, rs).Success? ==>
              && |CityRows(city, rs).value| == |KeptRisks(rs)|
              && forall j :: 0 <= j < |KeptRisks(rs)| ==> CityRows(city, rs).value[j] == Shape(city, KeptRisks(rs)[j])
    decreases |rs|
  {
    if |rs| > 0 {
      var tail := rs[1..];
      assert forall i :: 0 <= i < |tail| ==> tail[i] == rs[i + 1];
      CityRowsSpec(city, tail);
      if CityRows(city, rs).Success? {
        var ks := KeptRisks(rs);
        var rows := CityRows(city, rs).value;
        assert Readable(rs[0]);
        if Kept(rs[0]) {
          assert ks == [rs[0]] + KeptRisks(tail);
          assert rows == [Shape(city, rs[0])] + CityRows(city, tail).value;
        } else {
          assert ks == KeptRisks(tail);
          assert rows == CityRows(city, tail).value;
        }
      }
    }
  }

  /** The last risk of a city never reaches the output, whatever it is. */
  lemma LastRiskIgnored(city: string, status: int, rs: seq<Risk>, last: Risk)
    ensures CityRisks(city, RiskResponse(status, Some(rs + [last]))) == CityRows(city, rs)
  {
    assert (rs + [last])[..|rs|] == rs;
  }

  /** `Σ max(n - 1, 0)` over the cities' risk lists. */
  function ConsideredCount(cities: seq<(string, RiskResponse)>): nat
    decreases |cities|
  {
    if |cities| == 0 then 0
    else (if cities[0].1.risks.Some? then |AllButLast(cities[0].1.risks.value)| else 0) + ConsideredCount(cities[1..])
  }

  /** Every row is tagged with one of the cities, and there are at most as
      many rows as considered risks. */
  lemma {:induction false} TimeseriesLoopBounds(cities: seq<(string, RiskResponse)>)
    requires TimeseriesLoop(cities).Success?
    ensures |TimeseriesLoop(cities).value| <= ConsideredCount(cities)
    ensures forall j :: 0 <= j < |TimeseriesLoop(cities).value| ==>
              exists c :: 0 <= c < |cities| && TimeseriesLoop(cities).value[j].name == cities[c].0
    decreases |cities|
  {
    if |cities| > 0 {
      var tail := cities[1..];
      var city := cities[0].0;
      var rs: seq<Risk> := AllButLast(cities[0].1.risks.value);
      CityRowsSpec(city, rs);
      TimeseriesLoopBounds(tail);
      var rows: seq<RiskRow> := CityRows(city, rs).value;
      var rest: seq<RiskRow> := TimeseriesLoop(tail).value;
      forall j | 0 <= j < |rows + rest|
        ensures exists c :: 0 <= c < |cities| && (rows + rest)[j].name == cities[c].0
      {
        if j < |rows| {
          assert rows[j] == Shape(city, KeptRisks(rs)[j]);
          assert (rows + rest)[j].name == cities[0].0;
        } else {
          var c :| 0 <= c < |tail| && rest[j - |rows|].name == tail[c].0;
          assert (rows + rest)[j].name == cities[c + 1].0;
        }
      }
    }
  }

  /** Every risk of a city that the loop considers can be read. */
  ghost predicate CityReadable(resp: RiskResponse) {
    resp.risks.Some? && forall r :: r in AllButLast(resp.risks.value) ==> Readable(r)
  }

  /** The rows of kept, readable risks, one per risk, in order. */
  ghost function ShapeAll(city: string, ks: seq<Risk>): (rows: seq<RiskRow>)
    requires forall r :: r in ks ==> Kept(r) && Readable(r)
    ensures |rows| == |ks|
    ensures forall j :: 0 <= j < |ks| ==> rows[j] == Shape(city, ks[j])
    decreases |ks|
  {
    if |ks| == 0 then [] else [Shape(city, ks[0])] + ShapeAll(city, ks[1..])
  }

  /** The reference time series: city after city, in input order, the
      shaped rows of the kept risks among all but the last. */
  ghost function ReferenceRows(cities: seq<(string, RiskResponse)>): seq<RiskRow>
    requires forall c :: 0 <= c < |cities| ==> CityReadable(cities[c].1)
    decreases |cities|
  {
    if |cities| == 0 then []
    else
      assert CityReadable(cities[0].1);
      assert forall c :: 0 <= c < |cities| - 1 ==> cities[1..][c] == cities[c + 1];
      var rs := AllButLast(cities[0].1.risks.value);
      ShapeAll(cities[0].0, KeptRisks(rs)) + ReferenceRows(cities[1..])
  }

  /** The loop over all cities raises exactly when some city lacks `risks`
      or has an unreadable risk, and otherwise produces the reference rows:
      city by city in input order, each row tagged with its own city. */
  lemma {:induction false} TimeseriesLoopSpec(cities: seq<(string, RiskResponse)>)
    ensures TimeseriesLoop(cities).Success? <==> forall c :: 0 <= c < |cities| ==> CityReadable(cities[c].1)
    ensures TimeseriesLoop(cities).Success? ==> TimeseriesLoop(cities).value == ReferenceRows(cities)
    decreases |cities|
  {
    if |cities| > 0 {
      var tail := cities[1..];
      assert forall c :: 0 <= c < |tail| ==> tail[c] == cities[c + 1];
      TimeseriesLoopSpec(tail);
      var resp := cities[0].1;
      if resp.risks.Some? {
        var rs := AllButLast(resp.risks.value);
        CityRowsSpec(cities[0].0, rs);
        assert (forall i :: 0 <= i < |rs| ==> Readable(rs[i])) <==> CityReadable(resp);
        if CityReadable(resp) {
          assert CityRows(cities[0].0, rs).value == ShapeAll(cities[0].0, KeptRisks(rs));
        }
      } else {
        assert !CityReadable(resp);
      }
    }
  }

  /** A successful `risk_timeseries` appends at least one and at most
      `Σ max(n - 1, 0)` rows to the risks collection, each tagged with one
      of the cities, and keeps what was there. */
  lemma RiskTimeseriesStores(responses: Dict<RiskResponse>, collection: seq<RiskRow>)
    requires RiskTimeseries(responses, collection).Success?
    ensures var r := RiskTimeseries(responses, collection).value;
            && |collection| < |r| <= |collection| + ConsideredCount(responses.items)
            && r[..|collection|] == collection
            && forall j :: |collection| <= j < |r| ==>
                 exists c :: 0 <= c < |responses.items| && r[j].name == responses.items[c].0
  {
    var rows := TimeseriesLoop(responses.items).value;
    TimeseriesLoopBounds(responses.items);
    var r := RiskTimeseries(responses, collection).value;
    assert r == collection + rows;
    forall j | |collection| <= j < |r|
      ensures exists c :: 0 <= c < |responses.items| && r[j].name == responses.items[c].0
    {
      assert r[j] == rows[j - |collection|];
    }
  }

  /** `"YYYY-MM-DD..."` becomes `"MM-DD-YYYY"`, and its year is `YYYY`. */
  lemma DateRewrite(y: string, m: string, d: string, rest: string)
    requires '-' !in y && '-' !in m && '-' !in d
    requires |d| == 2
    ensures Year(y + "-" + m + "-" + d + rest) == y
    ensures DateOf(y + "-" + m + "-" + d + rest) == Success(m + "-" + d + "-" + y)
  {
    var s := y + "-" + m + "-" + d + rest;
    assert s == y + ['-'] + (m + ['-'] + (d + rest));
    SplitAfter(y, m + ['-'] + (d + rest), '-');
    SplitAfter(m, d + rest, '-');
    SplitFirstStartsWith(d, rest, '-');
    var parts := Split(s, '-');
    assert parts == [y] + ([m] + Split(d + rest, '-'));
    assert parts[2] == Split(d + rest, '-')[0];
  }

  lemma DateRewriteExample()
    ensures DateOf("2023-05-17T08:30:00Z") == Success("05-17-2023")
  {
    var fd := "2023" + "-" + "05" + "-" + "17" + "T08:30:00Z";
    DateRewrite("2023", "05", "17", "T08:30:00Z");
    assert DateOf(fd) == Success("05" + "-" + "17" + "-" + "2023");
    assert "05" + "-" + "17" + "-" + "2023" == "05-17-2023";
    assert fd == "2023-05-17T08:30:00Z";
  }

  /** A risk first detected in 2021 is read as year "2021", so it is skipped. */
  lemma YearExample()
    ensures Year("2021-11-02T10:00:00Z") == "2021"
  {
    DateRewrite("2021", "11", "02", "T10:00:00Z");
    assert "2021-11-02T10:00:00Z" == "2021" + "-" + "11" + "-" + "02" + "T10:00:00Z";
  }
}
