/** `deep_merge`: the recursive merge of a partial update into a stored
    document. None means "no change", a dict over a dict recurses, and any
    other value (a list included) replaces the old one. Values are immutable
    here, so the result is a fresh document and `existing` is never changed. */
module DocumentMerge {
  import opened Values

  /** The keys an update actually sets: present and not None. */
  function SetKeys(updates: Doc): set<string> {
    set k | k in updates && updates[k] != Null
  }

  function DeepMerge(existing: Doc, updates: Doc): (r: Doc)
    ensures r.Keys == existing.Keys + SetKeys(updates)
    ensures forall k :: k in existing && k !in SetKeys(updates) ==> r[k] == existing[k]
    ensures forall k :: k in SetKeys(updates) && !(updates[k].Obj? && k in existing && existing[k].Obj?) ==>
              r[k] == updates[k]
    ensures forall k :: k in SetKeys(updates) && updates[k].Obj? && k in existing && existing[k].Obj? ==>
              r[k].Obj? && r[k].fields.Keys == existing[k].fields.Keys + SetKeys(updates[k].fields)
    decreases Obj(updates)
  {
    map k | k in existing.Keys + SetKeys(updates) ::
      if k in updates && updates[k] != Null then
        if updates[k].Obj? && k in existing && existing[k].Obj? then
          assert updates[k] in updates.Values;
          Obj(DeepMerge(existing[k].fields, updates[k].fields))
        else
          updates[k]
      else
        existing[k]
  }

  /** Merging an update that sets nothing returns the document unchanged. */
  lemma MergeOfNothing(existing: Doc, updates: Doc)
    requires forall k :: k in updates ==> updates[k] == Null
    ensures DeepMerge(existing, updates) == existing
  {
    assert SetKeys(updates) == {};
  }

  /** A document merged into itself is unchanged. */
  lemma {:induction false} MergeWithItself(d: Doc)
    ensures DeepMerge(d, d) == d
    decreases Obj(d)
  {
    var r := DeepMerge(d, d);
    forall k | k in d && d[k].Obj?
      ensures r[k] == d[k]
    {
      assert d[k] in d.Values;
      MergeWithItself(d[k].fields);
    }
  }

  /** Applying the same update twice has the effect of applying it once. */
  lemma {:induction false} MergeIsIdempotent(existing: Doc, updates: Doc)
    ensures DeepMerge(DeepMerge(existing, updates), updates) == DeepMerge(existing, updates)
    decreases Obj(updates)
  {
    var once := DeepMerge(existing, updates);
    var twice := DeepMerge(once, updates);
    forall k | k in SetKeys(updates) && updates[k].Obj?
      ensures twice[k] == once[k]
    {
      assert updates[k] in updates.Values;
      if k in existing && existing[k].Obj? {
        MergeIsIdempotent(existing[k].fields, updates[k].fields);
      } else {
        MergeWithItself(updates[k].fields);
      }
    }
  }

  /** The value at a key path, following nested dicts. */
  function Lookup(d: Doc, path: seq<string>): Option<Value>
    decreases |path|
  {
    if path == [] || path[0] !in d then None
    else if |path| == 1 then Some(d[path[0]])
    else if d[path[0]].Obj? then Lookup(d[path[0]].fields, path[1..])
    else None
  }

  /** The update leaves the field at `path` alone: at some level the update
      does not set the key, and above that level both the update and the
      document hold dicts, so the merge recursed down to it. */
  ghost predicate Untouched(existing: Doc, updates: Doc, path: seq<string>)
    decreases |path|
  {
    && path != []
    && (|| path[0] !in SetKeys(updates)
        || (&& |path| > 1
            && updates[path[0]].Obj?
            && path[0] in existing && existing[path[0]].Obj?
            && Untouched(existing[path[0]].fields, updates[path[0]].fields, path[1..])))
  }

  /** Untouched fields keep their value, at any depth. */
  lemma {:induction false} UntouchedFieldsPreserved(existing: Doc, updates: Doc, path: seq<string>)
    requires Untouched(existing, updates, path)
    ensures Lookup(DeepMerge(existing, updates), path) == Lookup(existing, path)
    decreases |path|
  {
    var r := DeepMerge(existing, updates);
    var k := path[0];
    if k in SetKeys(updates) {
      UntouchedFieldsPreserved(existing[k].fields, updates[k].fields, path[1..]);
    }
  }

  /** A list or scalar the update sets at a path is what the merged document
      holds there, whatever the document held before. */
  lemma {:induction false} UpdatedLeafWins(existing: Doc, updates: Doc, path: seq<string>, v: Value)
    requires Lookup(updates, path) == Some(v) && v != Null && !v.Obj?
    ensures Lookup(DeepMerge(existing, updates), path) == Some(v)
    decreases |path|
  {
    var k := path[0];
    if |path| > 1 && k in existing && existing[k].Obj? {
      UpdatedLeafWins(existing[k].fields, updates[k].fields, path[1..], v);
    }
  }
}
