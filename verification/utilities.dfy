/** `parse_vulnerabilities` of Utilities.py: the vulnerability table the
    frequency analysis in Analysis.py consumes, one single-key dict
    `{municipality: [description, ...]}` per municipality. */
module Utilities {
  import opened Wrappers
  import opened OrderedDict
  import opened Api
  import opened Findings

  ghost predicate HasDescription(v: Vulnerability) {
    v.cve.Some? && v.cve.value.description.Some?
  }

  /** `[v['cve']['description'] for v in vs]`, raising on the first entry
      without a description. */
  function Descriptions(vs: seq<Vulnerability>): Result<seq<string>>
    decreases |vs|
  {
    if |vs| == 0 then Success([])
    else if vs[0].cve.None? then Failure(KeyError("cve"))
    else if vs[0].cve.value.description.None? then Failure(KeyError("description"))
    else match Descriptions(vs[1..])
      case Failure(e) => Failure(e)
      case Success(rest) => Success([vs[0].cve.value.description.value] + rest)
  }

  /** The entry of one municipality: the descriptions of every
      vulnerability but the last. The response status is not checked. */
  function CityEntry(name: string, resp: VulnerabilityResponse): Result<Dict<seq<string>>> {
    if resp.vulnerabilities.None? then Failure(KeyError("vulnerabilities"))
    else match Descriptions(AllButLast(resp.vulnerabilities.value))
      case Failure(e) => Failure(e)
      case Success(ds) => Success(Single(name, ds))
  }

  function TableLoop(cities: seq<(string, VulnerabilityResponse)>): Result<Table>
    decreases |cities|
  {
    if |cities| == 0 then Success([])
    else match CityEntry(cities[0].0, cities[0].1)
      case Failure(e) => Failure(e)
      case Success(entry) =>
        match TableLoop(cities[1..])
        case Failure(e) => Failure(e)
        case Success(rest) => Success([entry] + rest)
  }

  /** `parse_vulnerabilities()` over the municipalities dict. */
  function ParseVulnerabilities(responses: Dict<VulnerabilityResponse>): Result<Table> {
    TableLoop(responses.items)
  }

  /** The number of vulnerabilities the loop looks at: `max(n - 1, 0)`. */
  function Considered(resp: VulnerabilityResponse): nat {
    if resp.vulnerabilities.Some? then |AllButLast(resp.vulnerabilities.value)| else 0
  }

  ghost predicate CityReadable(resp: VulnerabilityResponse) {
    && resp.vulnerabilities.Some?
    && forall j :: 0 <= j < Considered(resp) ==> HasDescription(resp.vulnerabilities.value[j])
  }

  lemma {:induction false} DescriptionsSpec(vs: seq<Vulnerability>)
    ensures Descriptions(vs).Success? <==> forall i :: 0 <= i < |vs| ==> HasDescription(vs[i])
    ensures Descriptions(vs).Success? ==>
              && |Descriptions(vs).value| == |vs|
              && forall i :: 0 <= i < |vs| ==> Descriptions(vs).value[i] == vs[i].cve.value.description.value
    decreases |vs|
  {
    if |vs| > 0 {
      DescriptionsSpec(vs[1..]);
      assert forall i :: 0 <= i < |vs| - 1 ==> vs[1..][i] == vs[i + 1];
    }
  }

  /** The table exists exactly when every response has a `vulnerabilities`
      list whose considered entries all have descriptions; it then has one
      single-key entry per municipality, in order, holding the descriptions
      of all vulnerabilities but the last, in response order (an empty list
      when there are fewer than two). */
  lemma {:induction false} TableLoopSpec(cities: seq<(string, VulnerabilityResponse)>)
    ensures TableLoop(cities).Success? <==> forall i :: 0 <= i < |cities| ==> CityReadable(cities[i].1)
    ensures TableLoop(cities).Success? ==>
              && |TableLoop(cities).value| == |cities|
              && forall i :: 0 <= i < |cities| ==>
                   && Keys(TableLoop(cities).value[i]) == [cities[i].0]
                   && |TableLoop(cities).value[i].items[0].1| == Considered(cities[i].1)
                   && forall j :: 0 <= j < Considered(cities[i].1) ==>
                        TableLoop(cities).value[i].items[0].1[j]
                          == cities[i].1.vulnerabilities.value[j].cve.value.description.value
    decreases |cities|
  {
    if |cities| > 0 {
      var tail := cities[1..];
      assert forall i :: 0 <= i < |tail| ==> tail[i] == cities[i + 1];
      TableLoopSpec(tail);
      var resp := cities[0].1;
      if resp.vulnerabilities.Some? {
        DescriptionsSpec(AllButLast(resp.vulnerabilities.value));
      }
      if TableLoop(cities).Success? {
        var t := TableLoop(cities).value;
        assert t == [CityEntry(cities[0].0, resp).value] + TableLoop(tail).value;
        forall i | 0 <= i < |cities|
          ensures Keys(t[i]) == [cities[i].0]
          ensures |t[i].items[0].1| == Considered(cities[i].1)
          ensures forall j :: 0 <= j < Considered(cities[i].1) ==>
                    t[i].items[0].1[j] == cities[i].1.vulnerabilities.value[j].cve.value.description.value
        {
          if i > 0 { assert t[i] == TableLoop(tail).value[i - 1]; }
        }
      }
    }
  }

  /** `Σ max(n - 1, 0)` over the municipalities. */
  function TotalConsidered(cities: seq<(string, VulnerabilityResponse)>): nat
    decreases |cities|
  {
    if |cities| == 0 then 0 else Considered(cities[0].1) + TotalConsidered(cities[1..])
  }

  /** The table holds `Σ max(n - 1, 0)` descriptions in all, and the
      frequency counts built from it sum to that number. */
  lemma {:induction false} TableTotal(cities: seq<(string, VulnerabilityResponse)>)
    requires TableLoop(cities).Success?
    ensures |Flatten(TableLoop(cities).value)| == TotalConsidered(cities)
    ensures Sum(Values(ChallengeFrequency(TableLoop(cities).value))) == TotalConsidered(cities)
    decreases |cities|
  {
    if |cities| > 0 {
      var t := TableLoop(cities).value;
      var entry := CityEntry(cities[0].0, cities[0].1).value;
      TableTotal(cities[1..]);
      DescriptionsSpec(AllButLast(cities[0].1.vulnerabilities.value));
      assert t == [entry] + TableLoop(cities[1..]).value;
      assert t[1..] == TableLoop(cities[1..]).value;
      assert entry.items[1..] == [];
      assert FlattenItems(entry.items) == entry.items[0].1 + FlattenItems([]);
    }
    ChallengeFrequencyCounts(TableLoop(cities).value);
  }
}
