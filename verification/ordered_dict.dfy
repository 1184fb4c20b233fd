/** Python's `dict`: a finite map that remembers insertion order.
    Assigning to a key already present keeps that key's position; assigning
    to a new key appends it. `keys()`, `values()` and `items()` iterate in
    that order, which the ranking code relies on. */
module OrderedDict {
  import opened Wrappers

  datatype Dict<V> = Dict(items: seq<(string, V)>)

  function Empty<V>(): Dict<V> { Dict([]) }

  /** `{k: v}` */
  function Single<V>(k: string, v: V): Dict<V> { Dict([(k, v)]) }

  ghost predicate Distinct(s: seq<string>) {
    forall i, j :: 0 <= i < j < |s| ==> s[i] != s[j]
  }

  /** Every Python dict has pairwise distinct keys. */
  ghost predicate Valid<V>(d: Dict<V>) {
    Distinct(Keys(d))
  }

  /** `list(d.keys())` */
  function Keys<V>(d: Dict<V>): (ks: seq<string>)
    ensures |ks| == |d.items|
    ensures forall i :: 0 <= i < |d.items| ==> ks[i] == d.items[i].0
  {
    seq(|d.items|, i requires 0 <= i < |d.items| => d.items[i].0)
  }

  /** `list(d.values())` */
  function Values<V>(d: Dict<V>): (vs: seq<V>)
    ensures |vs| == |d.items|
    ensures forall i :: 0 <= i < |d.items| ==> vs[i] == d.items[i].1
  {
    seq(|d.items|, i requires 0 <= i < |d.items| => d.items[i].1)
  }

  /** `list(d.items())` read back as a dict: pairs `names[i]: vals[i]`. */
  function Zip<V>(names: seq<string>, vals: seq<V>): (d: Dict<V>)
    requires |names| == |vals|
    ensures Keys(d) == names && Values(d) == vals
  {
    Dict(seq(|names|, i requires 0 <= i < |names| => (names[i], vals[i])))
  }

  /** Position of the first occurrence of `k` in `ks`. */
  function IndexOf(ks: seq<string>, k: string): (i: nat)
    requires k in ks
    ensures i < |ks| && ks[i] == k
    ensures forall j :: 0 <= j < i ==> ks[j] != k
  {
    if ks[0] == k then 0 else 1 + IndexOf(ks[1..], k)
  }

  /** `d[k]`, with `None` standing for the KeyError. */
  function Lookup<V>(d: Dict<V>, k: string): (r: Option<V>)
    ensures r.Some? <==> k in Keys(d)
  {
    if k in Keys(d) then Some(d.items[IndexOf(Keys(d), k)].1) else None
  }

  /** `d.get(k, default)` */
  function GetOr<V>(d: Dict<V>, k: string, default: V): V {
    match Lookup(d, k)
    case Some(v) => v
    case None => default
  }

  /** `d[k] = v` */
  function Put<V>(d: Dict<V>, k: string, v: V): (r: Dict<V>)
    ensures k in Keys(d) ==> Keys(r) == Keys(d)
    ensures k !in Keys(d) ==> Keys(r) == Keys(d) + [k]
  {
    var ks := Keys(d);
    if k in ks then
      var r := Dict(d.items[IndexOf(ks, k) := (k, v)]);
      assert Keys(r) == ks;
      r
    else
      var r := Dict(d.items + [(k, v)]);
      assert Keys(r) == ks + [k];
      r
  }

  /** `d[k] = v` overwrites the value of an existing key in place and
      appends the value of a new one. */
  lemma PutValues<V>(d: Dict<V>, k: string, v: V)
    ensures k in Keys(d) ==> Values(Put(d, k, v)) == Values(d)[IndexOf(Keys(d), k) := v]
    ensures k !in Keys(d) ==> Values(Put(d, k, v)) == Values(d) + [v]
  {
  }

  /** After `d[k] = v`, reading `k` gives `v` and every other key reads as before. */
  lemma PutLookup<V>(d: Dict<V>, k: string, v: V, k': string)
    ensures Lookup(Put(d, k, v), k') == if k' == k then Some(v) else Lookup(d, k')
  {
    var ks := Keys(d);
    var r := Put(d, k, v);
    if k in ks {
      if k' in ks && k' != k {
        assert IndexOf(Keys(r), k') == IndexOf(ks, k');
      }
    } else {
      if k' in ks && k' != k {
        IndexOfAppend(ks, k', k);
      }
      if k' == k {
        assert IndexOf(Keys(r), k) == |ks|;
      }
    }
  }

  lemma PutValid<V>(d: Dict<V>, k: string, v: V)
    requires Valid(d)
    ensures Valid(Put(d, k, v))
  {
  }

  lemma IndexOfAppend(ks: seq<string>, k: string, x: string)
    requires k in ks
    ensures IndexOf(ks + [x], k) == IndexOf(ks, k)
  {
    if ks[0] != k {
      assert (ks + [x])[1..] == ks[1..] + [x];
      IndexOfAppend(ks[1..], k, x);
    }
  }
}
