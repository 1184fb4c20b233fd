# MAPC municipal cyber-risk analysis, modelled in Dafny

The scripts fetch cyber-risk data for Massachusetts municipalities from a
vendor API, store it in MongoDB, and turn it into graphs, a ranked list of
the most common vulnerabilities, and PDF remediation reports. This project
models the pure computations inside that plumbing, and proves what they do:

- **Score extraction** (`read_file`): vendor score records become four
  name-to-number dicts (overall, email, web, network). They share one key
  list, the last record for a name wins, and a missing category reads as 0.
  Module `Scores`.
- **The ranker** (`sort_dictionaries`): values are sorted on their own and
  written back onto the keys in their original order. The i-th key gets the
  i-th smallest value; this is not a sort of key/value pairs. Module
  `Ranker`, on top of `OrderedDict`, a model of Python's insertion-ordered
  dict, and `Sorting`.
- **Finding frequencies and top lists** (`create_challenge_frequency_graph`,
  `create_vulnerability_frequency_graph`): descriptions are counted across
  all municipalities, ranked, reversed and cut to 15 and 5 entries. The
  top 15 are written one `key | value` or `key , value` line each. Module
  `Findings`.
- **Insert-if-absent collections** (`__send_to_mongodb`, `query_db`,
  `clear_db`, and remediation's store keyed by `IP`). Modules `KeyedStore`
  and `FetchData`.
- **Vulnerability tables**: `__parse_vulnerabilities` in FetchData.py
  (module `FetchData`) and `parse_vulnerabilities` in Utilities.py (module
  `Utilities`). Both keep the first n-1 entries of each response.
- **Risk time series** (`risk_timeseries`): the last risk of each city is
  skipped, incomplete and 2021 risks are dropped, and `YYYY-MM-DD...`
  becomes `MM-DD-YYYY`. Module `FetchData`.
- **Remediation reports** (`fetch_data`, `generate_report`): issue
  records, the title derived from the host name, the score line, and the
  numbered issue headings. Module `Remediation`.
- **`max_sum`** from test.py: a sliding-window maximum, written as a method
  with loop invariants. Module `SlidingWindow`.

Graph.py, Main.py and Analysis.py repeat `read_file`, `sort_dictionaries`,
the stacked-bar table and the frequency pipeline almost word for word. Each
piece is modelled once, and the table below cites whichever copy the
member's row is about.

Modelling conventions:

- A Python dict is `OrderedDict.Dict`, a sequence of key/value pairs with
  string keys. Iteration order matters to the ranker and the top lists.
- A MongoDB collection is `KeyedStore.Store`, a map from the key field to
  the document.
- API responses are already-parsed inputs (module `Api`). A field the
  response may lack is an `Option`.
- An exception the code lets escape is a `Wrappers.Result` failure naming
  its kind: KeyError with the key, IndexError, TypeError, the
  AssertionError on a status code, or pandas' ValueError.
- An exception the code swallows (in `__send_to_mongodb`) leaves the
  collection unchanged.
- Integers are unbounded, as in Python.

The ranker behaves as written, not as its docstring says. For example, the
frequency dict `{x: 2, y: 1}` ranks to `{x: 1, y: 2}`, so its top-1 entry
is `("y", 2)`, not `("x", 2)` (`Findings.TopOneOfSmallTable`).

## Model

| member | source | states |
|---|---|---|
| Scores.Extract | Scripts/Graph.py:65-75 | A record yields its name, score and three category scores exactly when `score`, `name` and `categoryScores` are all present |
| Scores.ReadIntoFails | Analysis.py:28-42 | Reading fails exactly when some record lacks `score`, `name` or `categoryScores`, and then with the error of the first such record |
| Scores.ReadIntoKeys | Analysis.py:26-43 | The four dicts keep one shared key list; a key is in it exactly when it was there before or some record carries that name |
| Scores.ReadIntoLastWins | Scripts/Main.py:45-58 | A name's four entries come from the last record with that name; an absent category reads as 0 |
| Scores.ReadFileSpec | Scripts/Graph.py:63-76 | Over a whole file: failure iff a malformed record; the four dicts share one key list, which holds exactly the record names; the last record for a name wins |
| Scores.MissingCategoriesReadAsZero | Scripts/Graph.py:69-75 | A record with score 700 and only `emailSecurity: 90` reads as overall 700, email 90, web 0, network 0 |
| Scores.StackedBarTableShape | Scripts/Main.py:82-89 | The stacked-bar frame exists iff the four dicts have equal size; its index is the score dict's keys in order; each column is its category's values in ascending order, a permutation of them |
| Scores.StackedBarTableOfReadFile | Analysis.py:68-76 | The dicts produced by `read_file` always make a frame, indexed by the overall-score keys |
| OrderedDict.Put | Scripts/Graph.py:68 | Assigning to a present key keeps the key list; assigning to a new key appends it at the end |
| OrderedDict.PutLookup | Scripts/Graph.py:176 | After `d[k] = v`, `k` reads `v` and every other key reads as before |
| Sorting.Sort | Scripts/Graph.py:135 | `sorted` returns an ascending permutation of its input |
| Sorting.SortedUnique | Scripts/Main.py:113 | Two ascending lists with the same elements are equal, so any correct sort gives the same list as `sorted` |
| Ranker.ZipIntoAppends | Analysis.py:98-99 | Assigning distinct fresh keys one by one appends the pairs in order |
| Ranker.SortDictionariesPairs | Scripts/Main.py:113-115 | The ranked dict pairs the i-th original key with the i-th smallest value |
| Ranker.SortDictionariesKeepsKeys | Scripts/Graph.py:134-138 | The ranked dict has the same keys, in the same order, and the same length |
| Ranker.SortDictionariesSortsValues | Scripts/Main.py:112-116 | The ranked values are non-decreasing and a permutation of the input values; entry i keeps key i and gets the i-th smallest value |
| Ranker.SortDictionariesIdempotent | Analysis.py:96-100 | Ranking twice gives the same dict as ranking once |
| Ranker.SortDictionariesMovesValues | Scripts/Graph.py:136-137 | For any two distinct keys a and b, `{a: 2, b: 1}` ranks to `{a: 1, b: 2}`: values move between keys instead of travelling with them |
| Ranker.TopKShape | Scripts/Graph.py:180 | The reversed, cut list has min(k, n) entries: the last k keys reversed, paired with the k largest values, largest first |
| Ranker.TopKDescending | Scripts/Main.py:146 | Values in a top list never increase |
| Ranker.TopKDominates | Analysis.py:132 | Every value in a top list is at least every value left out of it |
| Ranker.TopKPrefix | Scripts/Graph.py:180-182 | A shorter top list is a prefix of a longer one |
| Findings.FrequenciesCount | Scripts/Graph.py:172-176 | Each description's count is its number of occurrences across all lists, repeats included |
| Findings.FrequenciesKeys | Scripts/Main.py:138-142 | The counted descriptions are exactly those that occur, in order of first occurrence |
| Findings.FrequenciesSum | Analysis.py:123-127 | The counts sum to the total number of descriptions |
| Findings.ChallengeFrequencyCounts | Scripts/Main.py:136-142 | The frequency dict of a vulnerability table is a genuine dict whose counts, keys and total match the table's descriptions |
| Findings.TopListsShape | Analysis.py:132-136 | Top-15 has min(15, #distinct) entries, top-5 is its prefix of min(5, #distinct) entries, and counts never increase |
| Findings.TopNamesAndCounts | Scripts/Main.py:144-148 | Top-k names are the last k distinct descriptions in first-seen order, reversed, paired with the k largest counts in descending order |
| Findings.TopOneOfSmallTable | Scripts/Graph.py:172-182 | For the table `[{A: [x, y]}, {B: [x]}]` the counts are `{x: 2, y: 1}`, and the top-1 entry is `("y", 2)` |
| Findings.ParseFormatLine | Scripts/Graph.py:207 | A written line (key, the bar or comma separator, count, newline) reads back as the same key and count |
| Findings.TopFileLines | Analysis.py:161-163 | One newline-terminated write per top-15 entry, in list order, each reading back as that entry |
| Findings.ReadTopFileRoundTrip | Scripts/Graph.py:205-207 | The whole file text, cut at newlines and parsed line by line, gives back the written list, as long as no key holds a newline |
| Findings.TopFilesReadBack | Analysis.py:161-163 | `top_issues.txt` and `top_vulnerabilities.csv` read back as the table's top-15 list, as long as no description holds a newline |
| Text.ParseNatToString | Scripts/Remediation.py:136 | The decimal rendering of a non-negative integer reads back as that integer |
| Text.JoinSplit | Scripts/FetchData.py:324 | Joining the pieces of `split("-")` with the separator gives the string back |
| Text.SplitAfter | Scripts/FetchData.py:327-329 | A leading piece without the separator is split off as the first part |
| Text.RemoveAllChar | Scripts/Remediation.py:134 | `replace("-", "")` leaves no dash and keeps every other character, in order |
| Text.RemoveAllDropsOccurrence | Scripts/Remediation.py:134 | An occurrence of the pattern whose first character is absent from the text before it is removed, that text is kept, and removal continues after it |
| Text.Capitalize | Scripts/Remediation.py:134 | `capitalize()` keeps the length, upper-cases the first letter, lower-cases the rest, and changes nothing but case |
| KeyedStore.Find | Scripts/FetchData.py:284 | A lookup finds a document exactly when one is stored under the key, and it finds that document |
| KeyedStore.InsertIfAbsent | Scripts/Remediation.py:120-125 | Inserts exactly when the key is absent; the key set grows by the key; existing documents never change |
| KeyedStore.Clear | Scripts/FetchData.py:293 | After `delete_many({})` no key finds anything |
| KeyedStore.InsertIfAbsentTwice | Scripts/FetchData.py:222-224 | A second insert under the same key is a no-op that reports the existing document |
| KeyedStore.InsertIfAbsentFrame | Scripts/FetchData.py:222-234 | Inserting under one key never changes what another key finds |
| FetchData.SendToMongo | Scripts/FetchData.py:219-241 | An existing name leaves the collection unchanged; otherwise scores store `{name, data}`, vulnerabilities store `{name, vulnerabilities: data[name]}` when the key is there, and any other collection gets nothing |
| FetchData.ClearDb | Scripts/FetchData.py:290-296 | After `clear_db`, `query_db` finds nothing for any name |
| FetchData.SendToMongoWellKeyed | Scripts/FetchData.py:227-232 | Every stored document stays under its own `name` |
| FetchData.SendAllIdempotent | Scripts/FetchData.py:222-234 | Sending the same batch a second time changes nothing |
| FetchData.VulnerabilityRowsSpec | Scripts/FetchData.py:262-271 | Rows exist iff every entry has a severity and a description; row i is entry i's `{Vulnerability, Severity}` |
| FetchData.ParseVulnerabilitiesLoopSpec | Scripts/FetchData.py:247-278 | Success iff every response is 200 and readable, returning the empty list; stored documents never change; success or not, each new city before the first bad response gets the document holding the rows of its first n-1 vulnerabilities, and no other key is added |
| FetchData.ParseVulnerabilitiesLoopDocuments | Scripts/FetchData.py:247-278 | Success or not, old documents keep their contents and each new city before the first bad response is stored with the rows of all its vulnerabilities but the last |
| FetchData.ParseVulnerabilitiesLoopFrame | Scripts/FetchData.py:247-278 | Success or not, the collection afterwards holds the old keys, every city before the first bad response, and no other key |
| FetchData.StoreRisks | Scripts/FetchData.py:340 | `insert_many` fails on an empty list; otherwise it appends the rows after the existing ones |
| FetchData.CityRowsSpec | Scripts/FetchData.py:315-337 | One city's single pass raises iff some risk is unreadable; otherwise it equals filtering by "four fields present and not 2021", then shaping each survivor in order |
| FetchData.LastRiskIgnored | Scripts/FetchData.py:315 | A city's last risk never reaches the output, whatever it holds |
| FetchData.TimeseriesLoopSpec | Scripts/FetchData.py:302-337 | The loop raises iff some city lacks `risks` or has an unreadable risk among all but its last; otherwise its rows are, city by city in input order, the shaped kept risks of each city, tagged with that city |
| FetchData.TimeseriesLoopBounds | Scripts/FetchData.py:302-337 | There are at most Σ max(n − 1, 0) rows, each tagged with one of the cities |
| FetchData.RiskTimeseriesStores | Scripts/FetchData.py:301-340 | A successful run appends between one row and Σ max(n − 1, 0) rows to the risks collection and keeps the existing rows |
| FetchData.DateRewrite | Scripts/FetchData.py:324-329 | `YYYY-MM-DD...` has year `YYYY` and becomes `MM-DD-YYYY` |
| FetchData.DateRewriteExample | Scripts/FetchData.py:327-329 | `"2023-05-17T08:30:00Z"` becomes `"05-17-2023"` |
| FetchData.YearExample | Scripts/FetchData.py:324-325 | A timestamp from 2021 has year `"2021"`, so its risk is skipped |
| Utilities.DescriptionsSpec | Utilities.py:97-99 | Descriptions exist iff every entry has one; description i is entry i's |
| Utilities.TableLoopSpec | Utilities.py:85-99 | Success iff every response is readable. The table has one single-key entry `{name: list}` per municipality, in order. Each list holds the descriptions of the first n-1 vulnerabilities, and is empty when n ≤ 1 |
| Utilities.TableTotal | Utilities.py:94-102 | The table holds Σ max(n − 1, 0) descriptions, and the frequency counts built from it sum to that |
| Remediation.ReadScoresSpec | Scripts/Remediation.py:86-93 | The six scores are read iff the overall score and all five categories are present; a missing category is an error, not 0 |
| Remediation.IssuesSpec | Scripts/Remediation.py:99-116 | One issue per risk, in order, each with the risk's fields, its first hostname, and the same six scores; raises iff some risk lacks a field or a hostname |
| Remediation.FetchDataSpec | Scripts/Remediation.py:85-129 | A non-200 risk response changes nothing. Otherwise: success iff scores and risks are readable; `{IP: issues}` is appended; the issues are stored insert-if-absent under `IP` |
| Remediation.FetchDataKeepsStored | Scripts/Remediation.py:120-125 | A host already stored keeps its first document |
| Remediation.TitleHasNoDash | Scripts/Remediation.py:134 | The report title never contains a dash |
| Remediation.TitleExample | Scripts/Remediation.py:134 | `"topsfield-ma.gov"` gets the title `"Topsfield"` |
| Remediation.ScoreLineShape | Scripts/Remediation.py:163-166 | The score line has five segments; heading i shows score string i, so "Website Security" shows the overall score |
| Remediation.ScoreLineIgnoresBrand | Scripts/Remediation.py:163-166 | The sixth (brand) score string never reaches the score line |
| Remediation.IssueNumberOfHeading | Scripts/Remediation.py:174-175 | The number in issue heading `i` reads back as `i`, whatever the issue text |
| Remediation.GenerateReportSpec | Scripts/Remediation.py:131-175 | A report exists iff a document with an issue is stored under the host (no document is a TypeError, an empty one an IndexError). Its scores and its score line come from the first issue. Heading i shows stored issue i under the number i + 1, so the headings are pairwise distinct |
| SlidingWindow.SlideStep | test.py:20 | Sliding a window one step drops its first element and adds the next |
| SlidingWindow.MaxSum | test.py:1-24 | Returns -1 when the list is not longer than the window. Otherwise the result is at least every window's sum and equals some window's sum |
| SlidingWindow.Driver | test.py:28-30 | `max_sum([2, 6, 9, 2, 1, 8, 5, 6, 3], 3)` is 19 |

## Left out

- HTTP requests, headers, `load_dotenv`, and the URLs of the vendor API: every response is an input.
- The MongoDB client, its connection, and `server_info`.
- The exceptions `find_one`, `insert_one` or `delete_many` themselves might raise.
- Geocoding in `vendor_scores`: an external service returning floating-point coordinates.
- Appending `str(dict)` lines to Muncipalities.csv, and parsing each line with `json.loads`: records arrive already parsed.
- The vendor-scores loop around these steps.
- Plotting, figure sizes, and `textwrap` label wrapping.
- Histogram statistics (mean, median, standard deviation): floating point.
- reportlab PDF layout: paragraphs, styles, spacers, rules, the date line, and the "Overall Score … / 850" line.
- tes.py: floating-point matrix multiplication.
- The `__main__` drivers, `print` output, the `save_to_exel` stub, and the dict update at the end of test.py.
- Scores.ReadFileSpec: on an exception, `read_file` has already updated the dicts for the records before the bad one (and, when only `categoryScores` is missing, the score dict entry for the bad record itself). The model returns only the error, because the callers do not go on after it.
- FetchData.SendToMongo: vendor JSON sent to the vulnerabilities collection is kept abstract, so `data[name]` on it is treated as failing. The scripts never make that call.
- Remediation.FetchDataSpec: `fetch_data` does not check the status of the score response. The model, like the code, reads the score fields whatever that status is.
- Text.Capitalize: case mapping covers ASCII letters only; Python's `capitalize` also maps other Unicode letters.
- Vendor JSON values are modelled as strings and integers. Non-string `riskSubtype`, `severity`, `category` or `description` values, whose truthiness differs, are not modelled.
