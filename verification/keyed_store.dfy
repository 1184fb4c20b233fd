/** A MongoDB collection as the scripts use it: documents found by one key
    field (`name` for municipalities, `IP` for remediation), written only
    through "insert if no document with this key exists", and emptied by
    `delete_many({})`. There is no update path. */
module KeyedStore {
  import opened Wrappers

  type Store<D> = map<string, D>

  datatype Outcome = Inserted | AlreadyExists

  /** `find_one({key_field: key})`, `None` when nothing matches. */
  function Find<D>(s: Store<D>, key: string): (r: Option<D>)
    ensures r.Some? <==> key in s
    ensures r.Some? ==> r.value == s[key]
  {
    if key in s then Some(s[key]) else None
  }

  /** `if not find_one(...): insert_one(doc)`. */
  function InsertIfAbsent<D>(s: Store<D>, key: string, doc: D): (r: (Store<D>, Outcome))
    ensures r.1 == Inserted <==> key !in s
    ensures r.0.Keys == s.Keys + {key}
    ensures forall k :: k in s ==> k in r.0 && r.0[k] == s[k]
    ensures Find(r.0, key) == if key in s then Find(s, key) else Some(doc)
  {
    if key in s then (s, AlreadyExists) else (s[key := doc], Inserted)
  }

  /** `delete_many({})` */
  function Clear<D>(s: Store<D>): (r: Store<D>)
    ensures forall k :: Find(r, k) == None
  {
    map[]
  }

  /** A second insert under the same key, whatever its document, changes
      nothing and reports the existing document. */
  lemma InsertIfAbsentTwice<D>(s: Store<D>, key: string, doc: D, doc': D)
    ensures var s1 := InsertIfAbsent(s, key, doc).0;
            && InsertIfAbsent(s1, key, doc') == (s1, AlreadyExists)
            && Find(s1, key) == Find(InsertIfAbsent(s1, key, doc').0, key)
  {
  }

  /** Inserting under one key never changes what another key finds. */
  lemma InsertIfAbsentFrame<D>(s: Store<D>, key: string, doc: D, other: string)
    requires other != key
    ensures Find(InsertIfAbsent(s, key, doc).0, other) == Find(s, other)
  {
  }
}
