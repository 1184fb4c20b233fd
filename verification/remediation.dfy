/** Scripts/Remediation.py without HTTP, MongoDB and PDF layout:
    `fetch_data` turns one host's risks and scores into issue records and
    stores them insert-if-absent under the host (`IP`); `generate_report`
    derives the title, the score strings, the score line and the numbered
    issue headings from the stored document. */
module Remediation {
  import opened Wrappers
  import opened OrderedDict
  import opened KeyedStore
  import opened Api
  import opened Text

  /** One issue record of `issue_data`. */
  datatype Issue = Issue(
    issue: string, whyIsItRisky: string, description: string, host: string,
    overall: int, web: int, email: int, network: int, phishing: int, brand: int)

  /** `{"IP": ip, "Data": issues}` */
  datatype RemediationDocument = RemediationDocument(ip: string, data: seq<Issue>)

  /** `self.remediation_data` and the remediation collection. */
  datatype State = State(remediationData: seq<Dict<seq<Issue>>>, collection: Store<RemediationDocument>)

  /** The six scores every issue of a host carries. */
  datatype HostScores = HostScores(overall: int, web: int, email: int, network: int, phishing: int, brand: int)

  /** The five category keys, in the order `fetch_data` reads them. */
  const Categories: seq<string> := ["websiteSecurity", "emailSecurity", "networkSecurity", "phishing", "brandProtection"]

  /** `score_json['score']`, `['categoryScores']`, then the five categories;
      unlike the score graphs, a missing category is an error here. */
  function ReadScores(resp: ScoreResponse): Result<HostScores> {
    if resp.score.None? then Failure(KeyError("score"))
    else if resp.categoryScores.None? then Failure(KeyError("categoryScores"))
    else
      var cs := resp.categoryScores.value;
      if "websiteSecurity" !in cs then Failure(KeyError("websiteSecurity"))
      else if "emailSecurity" !in cs then Failure(KeyError("emailSecurity"))
      else if "networkSecurity" !in cs then Failure(KeyError("networkSecurity"))
      else if "phishing" !in cs then Failure(KeyError("phishing"))
      else if "brandProtection" !in cs then Failure(KeyError("brandProtection"))
      else Success(HostScores(resp.score.value, cs["websiteSecurity"], cs["emailSecurity"],
                              cs["networkSecurity"], cs["phishing"], cs["brandProtection"]))
  }

  ghost predicate ScoresReadable(resp: ScoreResponse) {
    resp.score.Some? && resp.categoryScores.Some?
    && forall c :: c in Categories ==> c in resp.categoryScores.value
  }

  /** The issue record of one risk: `finding`, `risk`, `description`,
      `hostnames`, then `hostnames[0]`. */
  function IssueOf(r: Risk, sc: HostScores): Result<Issue> {
    if r.finding.None? then Failure(KeyError("finding"))
    else if r.risk.None? then Failure(KeyError("risk"))
    else if r.description.None? then Failure(KeyError("description"))
    else if r.hostnames.None? then Failure(KeyError("hostnames"))
    else if |r.hostnames.value| == 0 then Failure(IndexError)
    else Success(Issue(r.finding.value, r.risk.value, r.description.value, r.hostnames.value[0],
                       sc.overall, sc.web, sc.email, sc.network, sc.phishing, sc.brand))
  }

  ghost predicate IssueReadable(r: Risk) {
    r.finding.Some? && r.risk.Some? && r.description.Some? && r.hostnames.Some? && |r.hostnames.value| > 0
  }

  function Issues(risks: seq<Risk>, sc: HostScores): Result<seq<Issue>>
    decreases |risks|
  {
    if |risks| == 0 then Success([])
    else match IssueOf(risks[0], sc)
      case Failure(e) => Failure(e)
      case Success(i) =>
        match Issues(risks[1..], sc)
        case Failure(e) => Failure(e)
        case Success(rest) => Success([i] + rest)
  }

  /** `fetch_data(IP)` given the two responses. */
  function FetchData(ip: string, riskResp: RiskResponse, scoreResp: ScoreResponse, st: State): Result<State> {
    if riskResp.status != OK then Success(st)
    else match ReadScores(scoreResp)
      case Failure(e) => Failure(e)
      case Success(sc) =>
        if riskResp.risks.None? then Failure(KeyError("risks"))
        else match Issues(riskResp.risks.value, sc)
          case Failure(e) => Failure(e)
          case Success(issues) =>
            Success(State(st.remediationData + [Single(ip, issues)],
                          InsertIfAbsent(st.collection, ip, RemediationDocument(ip, issues)).0))
  }

  lemma {:induction false} IssuesSpec(risks: seq<Risk>, sc: HostScores)
    ensures Issues(risks, sc).Success? <==> forall i :: 0 <= i < |risks| ==> IssueReadable(risks[i])
    ensures Issues(risks, sc).Success? ==>
              && |Issues(risks, sc).value| == |risks|
              && forall i :: 0 <= i < |risks| ==>
                   Issues(risks, sc).value[i] ==
                     Issue(risks[i].finding.value, risks[i].risk.value, risks[i].description.value,
                           risks[i].hostnames.value[0],
                           sc.overall, sc.web, sc.email, sc.network, sc.phishing, sc.brand)
    decreases |risks|
  {
    if |risks| > 0 {
      IssuesSpec(risks[1..], sc);
      assert forall i :: 0 <= i < |risks| - 1 ==> risks[1..][i] == risks[i + 1];
    }
  }

  lemma ReadScoresSpec(resp: ScoreResponse)
    ensures ReadScores(resp).Success? <==> ScoresReadable(resp)
    ensures ReadScores(resp).Success? ==>
              var cs := resp.categoryScores.value;
              ReadScores(resp).value == HostScores(resp.score.value, cs["websiteSecurity"], cs["emailSecurity"],
                                                   cs["networkSecurity"], cs["phishing"], cs["brandProtection"])
  {
  }

  /** A non-200 risk response changes nothing. Otherwise `fetch_data`
      succeeds exactly when the score response has the overall score and
      all five categories and every risk has its four fields and a
      hostname; it then appends `{IP: issues}` with one issue per risk, in
      order, each carrying the first hostname and the same six scores, and
      stores the issues under `IP` unless a document is already there. */
  lemma FetchDataSpec(ip: string, riskResp: RiskResponse, scoreResp: ScoreResponse, st: State)
    ensures riskResp.status != OK ==> FetchData(ip, riskResp, scoreResp, st) == Success(st)
    ensures riskResp.status == OK ==>
              (FetchData(ip, riskResp, scoreResp, st).Success? <==>
                 ScoresReadable(scoreResp) && riskResp.risks.Some?
                 && forall i :: 0 <= i < |riskResp.risks.value| ==> IssueReadable(riskResp.risks.value[i]))
    ensures riskResp.status == OK && FetchData(ip, riskResp, scoreResp, st).Success? ==>
              var st' := FetchData(ip, riskResp, scoreResp, st).value;
              var risks := riskResp.risks.value;
              var sc := ReadScores(scoreResp).value;
              && |st'.remediationData| == |st.remediationData| + 1
              && st'.remediationData[..|st.remediationData|] == st.remediationData
              && Keys(st'.remediationData[|st.remediationData|]) == [ip]
              && var issues := st'.remediationData[|st.remediationData|].items[0].1;
                 && |issues| == |risks|
                 && (forall i :: 0 <= i < |risks| ==>
                       && issues[i].issue == risks[i].finding.value
                       && issues[i].whyIsItRisky == risks[i].risk.value
                       && issues[i].description == risks[i].description.value
                       && issues[i].host == risks[i].hostnames.value[0]
                       && issues[i].overall == sc.overall && issues[i].web == sc.web
                       && issues[i].email == sc.email && issues[i].network == sc.network
                       && issues[i].phishing == sc.phishing && issues[i].brand == sc.brand)
                 && st'.collection == InsertIfAbsent(st.collection, ip, RemediationDocument(ip, issues)).0
  {
    ReadScoresSpec(scoreResp);
    if riskResp.status == OK && ScoresReadable(scoreResp) && riskResp.risks.Some? {
      IssuesSpec(riskResp.risks.value, ReadScores(scoreResp).value);
    }
  }

  /** Fetching a host a second time keeps its first stored document. */
  lemma FetchDataKeepsStored(ip: string, riskResp: RiskResponse, scoreResp: ScoreResponse, st: State)
    requires ip in st.collection
    requires FetchData(ip, riskResp, scoreResp, st).Success?
    ensures FetchData(ip, riskResp, scoreResp, st).value.collection == st.collection
  {
  }

  // ---------------------------------------------------------------------
  // generate_report

  /** The report text `generate_report` derives before layout. */
  datatype Report = Report(title: string, scores: seq<string>, scoreLine: string, headings: seq<string>)

  /** `IP.replace("ma.gov", "").replace("-", "").capitalize()` */
  function Title(ip: string): string {
    Capitalize(RemoveAll(RemoveAll(ip, "ma.gov"), "-"))
  }

  const ScoreHeadings: seq<string> := ["Website Security", "Email Security", "Network Security", "Phishing Score", "Brand Score"]

  /** `IP_Scores`: the six scores of the first issue as strings, in the
      order Overall, Web, Email, Network, Phishing, Brand. */
  function ScoreStrings(first: Issue): (r: seq<string>)
    ensures |r| == 6
  {
    [IntToString(first.overall), IntToString(first.web), IntToString(first.email),
     IntToString(first.network), IntToString(first.phishing), IntToString(first.brand)]
  }

  /** `[f"{h}: {s}" for h, s in zip(headings, scores)]`: `zip` stops at the
      shorter list. */
  function ZipSegments(headings: seq<string>, scores: seq<string>): (r: seq<string>)
    ensures |r| == if |headings| <= |scores| then |headings| else |scores|
  {
    var n := if |headings| <= |scores| then |headings| else |scores|;
    seq(n, i requires 0 <= i < n => headings[i] + ": " + scores[i])
  }

  function ScoreLine(scores: seq<string>): string {
    Join(ZipSegments(ScoreHeadings, scores), " | ")
  }

  const IssuePrefix: string := "<font size=14>Issue #"

  /** The bold heading of the issue numbered `index`. */
  function IssueHeading(index: nat, issue: string): string {
    IssuePrefix + NatToString(index) + ": <font size=12>" + issue + " </font></font>"
  }

  /** `enumerate(Data, start=1)` */
  function IssueHeadings(data: seq<Issue>): (r: seq<string>)
    ensures |r| == |data|
  {
    seq(|data|, i requires 0 <= i < |data| => IssueHeading(i + 1, data[i].issue))
  }

  /** `generate_report(IP)`: the lookup of the stored document raises a
      TypeError when there is none (`None['Data']`), and `Data[0]` an
      IndexError when it holds no issue. */
  function GenerateReport(ip: string, collection: Store<RemediationDocument>): Result<Report> {
    match Find(collection, ip)
    case None => Failure(TypeError)
    case Some(doc) =>
      if |doc.data| == 0 then Failure(IndexError)
      else
        var scores := ScoreStrings(doc.data[0]);
        Success(Report(Title(ip), scores, ScoreLine(scores), IssueHeadings(doc.data)))
  }

  /** Lower-casing yields a dash only from a dash. */
  lemma ToLowerDash(c: char)
    requires ToLower(c) == '-'
    ensures c == '-'
  {
  }

  /** The title never contains a dash. */
  lemma TitleHasNoDash(ip: string)
    ensures '-' !in Title(ip)
  {
    var s := RemoveAll(RemoveAll(ip, "ma.gov"), "-");
    RemoveAllChar(RemoveAll(ip, "ma.gov"), '-');
    var t := Capitalize(s);
    if '-' in t {
      var i :| 0 <= i < |t| && t[i] == '-';
      ToLowerDash(s[i]);
    }
  }

  lemma TitleDropsDomain()
    ensures RemoveAll("topsfield-ma.gov", "ma.gov") == "topsfield-"
  {
    var pat := "ma.gov";
    assert "topsfield-ma.gov" == "topsfield-" + pat;
    RemoveAllSkips("topsfield-", pat, pat);
    assert RemoveAll(pat, pat) == "";
  }

  lemma TitleDropsDash()
    ensures RemoveAll("topsfield-", "-") == "topsfield"
  {
    assert "topsfield-" == "topsfield" + "-";
    RemoveAllSkips("topsfield", "-", "-");
    assert RemoveAll("-", "-") == "";
  }

  /** `"topsfield-ma.gov"` gets the title `"Topsfield"`. */
  lemma TitleExample()
    ensures Title("topsfield-ma.gov") == "Topsfield"
  {
    TitleDropsDomain();
    TitleDropsDash();
    CapitalizeExample();
  }

  lemma CapitalizeExample()
    ensures Capitalize("topsfield") == "Topsfield"
  {
  }

  /** Five segments joined by `sep`, nested the way `Join` builds them. */
  lemma JoinFive(a: string, b: string, c: string, d: string, e: string, sep: string)
    ensures Join([a, b, c, d, e], sep) == a + sep + (b + sep + (c + sep + (d + sep + e)))
  {
    assert [d, e][1..] == [e];
    assert Join([d, e], sep) == d + sep + e;
    assert [c, d, e][1..] == [d, e];
    assert Join([c, d, e], sep) == c + sep + (d + sep + e);
    assert [b, c, d, e][1..] == [c, d, e];
    assert Join([b, c, d, e], sep) == b + sep + (c + sep + (d + sep + e));
    assert [a, b, c, d, e][1..] == [b, c, d, e];
  }

  /** The score line, written out: five segments, heading i beside score
      string i, so "Website Security" shows the overall score. */
  lemma ScoreLineShape(scores: seq<string>)
    requires |scores| == 6
    ensures ScoreLine(scores) ==
              "Website Security" + ": " + scores[0] + " | " + (
              "Email Security" + ": " + scores[1] + " | " + (
              "Network Security" + ": " + scores[2] + " | " + (
              "Phishing Score" + ": " + scores[3] + " | " + (
              "Brand Score" + ": " + scores[4]))))
  {
    var segs := ZipSegments(ScoreHeadings, scores);
    assert segs == [ScoreHeadings[0] + ": " + scores[0], ScoreHeadings[1] + ": " + scores[1],
                    ScoreHeadings[2] + ": " + scores[2], ScoreHeadings[3] + ": " + scores[3],
                    ScoreHeadings[4] + ": " + scores[4]];
    JoinFive(segs[0], segs[1], segs[2], segs[3], segs[4], " | ");
  }

  /** The sixth score string (brand) never reaches the score line. */
  lemma ScoreLineIgnoresBrand(scores: seq<string>, other: string)
    requires |scores| == 6
    ensures ScoreLine(scores[5 := other]) == ScoreLine(scores)
  {
    assert ZipSegments(ScoreHeadings, scores[5 := other]) == ZipSegments(ScoreHeadings, scores);
  }

  /** The number written in an issue heading: the digits between the prefix
      and the first colon. */
  function IssueNumber(heading: string): Option<nat> {
    var first := Split(heading, ':')[0];
    if |first| > |IssuePrefix| && first[..|IssuePrefix|] == IssuePrefix && AllDigits(first[|IssuePrefix|..]) then
      Some(ParseNat(first[|IssuePrefix|..]))
    else None
  }

  /** Heading `index` reads back as `index`, whatever the issue text. */
  lemma IssueNumberOfHeading(index: nat, issue: string)
    ensures IssueNumber(IssueHeading(index, issue)) == Some(index)
  {
    var digits := NatToString(index);
    var a := IssuePrefix + digits;
    var b := " <font size=12>" + issue + " </font></font>";
    assert IssueHeading(index, issue) == a + [':'] + b;
    assert ':' !in a by {
      assert forall i :: 0 <= i < |digits| ==> IsDigit(digits[i]);
    }
    SplitAfter(a, b, ':');
    assert a[..|IssuePrefix|] == IssuePrefix;
    assert a[|IssuePrefix|..] == digits;
    ParseNatToString(index);
  }

  /** The report exists exactly when a document is stored under the host and
      holds an issue (no document is a TypeError, an empty one an
      IndexError); its scores and score line come from the first issue;
      heading i shows stored issue i under the number i + 1, so the headings
      are pairwise distinct. */
  lemma GenerateReportSpec(ip: string, collection: Store<RemediationDocument>)
    ensures GenerateReport(ip, collection).Success? <==> ip in collection && |collection[ip].data| > 0
    ensures ip !in collection ==> GenerateReport(ip, collection) == Failure(TypeError)
    ensures ip in collection && |collection[ip].data| == 0 ==> GenerateReport(ip, collection) == Failure(IndexError)
    ensures GenerateReport(ip, collection).Success? ==>
              var r := GenerateReport(ip, collection).value;
              var data := collection[ip].data;
              && r.title == Title(ip)
              && r.scores == ScoreStrings(data[0])
              && r.scoreLine == ScoreLine(r.scores)
              && |r.headings| == |data|
              && (forall i :: 0 <= i < |data| ==> r.headings[i] == IssueHeading(i + 1, data[i].issue))
              && (forall i :: 0 <= i < |data| ==> IssueNumber(r.headings[i]) == Some(i + 1))
              && (forall i, j :: 0 <= i < j < |data| ==> r.headings[i] != r.headings[j])
  {
    if GenerateReport(ip, collection).Success? {
      var r := GenerateReport(ip, collection).value;
      var data := collection[ip].data;
      forall i | 0 <= i < |data| ensures IssueNumber(r.headings[i]) == Some(i + 1) {
        IssueNumberOfHeading(i + 1, data[i].issue);
      }
    }
  }
}
