/** The pre-processing stage (`BlogInputProcessor.apply`): filters the data
    and metadata entries, renames data keys and coerces data values through
    three hooks, collects into fresh maps where a later entry overwrites an
    earlier one with the same key, and stamps the metadata with a timestamp. */
module InputProcessor {
  import opened Wrappers
  import opened Assoc
  import opened Materialized

  const ExecutedAtKey: string := "pre-processor-executed-at"

  /** The stage's extension hooks `filterByEntry`, `transformKey`, `transformValue`. */
  datatype Hooks = Hooks(
    keep: (string, Value) -> bool,
    renameKey: string -> string,
    coerceValue: Value -> Value)

  /** The hooks as the stage ships them: accept every entry, change nothing. */
  function CurrentHooks(): Hooks {
    Hooks((k, v) => true, k => k, v => v)
  }

  /** Metadata goes through the same filter but keeps its keys and values. */
  function MetadataHooks(h: Hooks): Hooks {
    Hooks(h.keep, k => k, v => v)
  }

  /** `HashMap.merge` (behind `Collectors.toMap`) rejects a null value with a
      null-reference exception, which escapes the stage. */
  datatype PreError = NullValueRejected

  predicate Passes(h: Hooks, e: (string, Value)) {
    h.keep(e.0, e.1)
  }

  /** Some entry that passes the filter is turned into a null value. */
  predicate HasNullAfterCoercion(m: Entries<Value>, h: Hooks) {
    exists i :: 0 <= i < |m| && Passes(h, m[i]) && h.coerceValue(m[i].1) == Null
  }

  /** Reference meaning of last-write-wins: the coerced value of the LAST entry
      in iteration order that passes the filter and is renamed to `key`. */
  function LastValue(m: Entries<Value>, h: Hooks, key: string): Option<Value>
  {
    if |m| == 0 then None
    else
      var e := m[|m| - 1];
      if Passes(h, e) && h.renameKey(e.0) == key then Some(h.coerceValue(e.1))
      else LastValue(m[..|m| - 1], h, key)
  }

  /** The `stream().filter(..).collect(toMap(.., .., overwriteWithNew, HashMap::new))`
      step, entries taken in iteration order. */
  function Collect(m: Entries<Value>, h: Hooks): (r: Result<Entries<Value>, PreError>)
    ensures r.Err? <==> HasNullAfterCoercion(m, h)
    ensures r.Ok? ==> Unique(r.value)
    ensures r.Ok? ==> forall k :: Lookup(r.value, k) == LastValue(m, h, k)
  {
    if |m| == 0 then Ok([])
    else
      var init := m[..|m| - 1];
      var e := m[|m| - 1];
      var acc := Collect(init, h);
      assert HasNullAfterCoercion(m, h) <==>
             HasNullAfterCoercion(init, h) || (Passes(h, e) && h.coerceValue(e.1) == Null) by {
        HasNullSnoc(m, h);
      }
      if acc.Err? then Err(NullValueRejected)
      else if !Passes(h, e) then acc
      else if h.coerceValue(e.1) == Null then Err(NullValueRejected)
      else Ok(Put(acc.value, h.renameKey(e.0), h.coerceValue(e.1)))
  }

  lemma HasNullSnoc(m: Entries<Value>, h: Hooks)
    requires |m| > 0
    ensures HasNullAfterCoercion(m, h) <==>
            HasNullAfterCoercion(m[..|m| - 1], h) || (Passes(h, m[|m| - 1]) && h.coerceValue(m[|m| - 1].1) == Null)
  {
    var init := m[..|m| - 1];
    if HasNullAfterCoercion(m, h) {
      var i :| 0 <= i < |m| && Passes(h, m[i]) && h.coerceValue(m[i].1) == Null;
      if i < |m| - 1 { assert init[i] == m[i]; }
    }
    if HasNullAfterCoercion(init, h) {
      var i :| 0 <= i < |init| && Passes(h, init[i]) && h.coerceValue(init[i].1) == Null;
      assert m[i] == init[i];
    }
  }

  /** A key is in the collected map exactly when some kept entry is renamed to it. */
  lemma {:induction false} LastValueDefined(m: Entries<Value>, h: Hooks, key: string)
    ensures LastValue(m, h, key).Some? <==>
            exists i :: 0 <= i < |m| && Passes(h, m[i]) && h.renameKey(m[i].0) == key
  {
    if |m| > 0 {
      var init := m[..|m| - 1];
      LastValueDefined(init, h, key);
      if exists i :: 0 <= i < |m| && Passes(h, m[i]) && h.renameKey(m[i].0) == key {
        var i :| 0 <= i < |m| && Passes(h, m[i]) && h.renameKey(m[i].0) == key;
        if i < |m| - 1 { assert init[i] == m[i]; }
      }
      if exists i :: 0 <= i < |init| && Passes(h, init[i]) && h.renameKey(init[i].0) == key {
        var i :| 0 <= i < |init| && Passes(h, init[i]) && h.renameKey(init[i].0) == key;
        assert m[i] == init[i];
      }
    }
  }

  /** Last write wins: when entry `j` is the last kept entry renamed to its key,
      the collected value for that key is entry `j`'s coerced value, whatever
      earlier entries were renamed to the same key. */
  lemma {:induction false} LastWriteWins(m: Entries<Value>, h: Hooks, j: nat)
    requires j < |m| && Passes(h, m[j])
    requires forall l :: j < l < |m| && Passes(h, m[l]) ==> h.renameKey(m[l].0) != h.renameKey(m[j].0)
    ensures LastValue(m, h, h.renameKey(m[j].0)) == Some(h.coerceValue(m[j].1))
  {
    if j < |m| - 1 {
      var init := m[..|m| - 1];
      assert init[j] == m[j];
      forall l | j < l < |init| && Passes(h, init[l])
        ensures h.renameKey(init[l].0) != h.renameKey(init[j].0)
      {
        assert init[l] == m[l];
      }
      LastWriteWins(init, h, j);
    }
  }

  /** With a filter but no renaming or coercion, a map with unique keys collects
      to its own kept entries. */
  lemma {:induction false} LastValueIdentity(m: Entries<Value>, h: Hooks, key: string)
    requires Unique(m)
    ensures LastValue(m, MetadataHooks(h), key) ==
            (match Lookup(m, key)
             case Some(v) => if h.keep(key, v) then Some(v) else None
             case None => None)
  {
    if |m| > 0 {
      var init := m[..|m| - 1];
      var e := m[|m| - 1];
      assert Unique(init);
      LastValueIdentity(init, h, key);
      LookupSnoc(m);
    }
  }

  /** Looking up in `init + [e]` with unique keys. */
  lemma LookupSnoc(m: Entries<Value>)
    requires |m| > 0 && Unique(m)
    ensures forall k :: Lookup(m, k) ==
                        (if k == m[|m| - 1].0 then Some(m[|m| - 1].1) else Lookup(m[..|m| - 1], k))
  {
    var init := m[..|m| - 1];
    var e := m[|m| - 1];
    forall k ensures Lookup(m, k) == (if k == e.0 then Some(e.1) else Lookup(init, k)) {
      if k == e.0 {
        LookupAt(m, |m| - 1);
      } else {
        LookupAppend(init, e, k);
        InitLast(m);
      }
    }
  }

  lemma {:induction false} LookupAppend(init: Entries<Value>, e: (string, Value), k: string)
    requires k != e.0
    ensures Lookup(init + [e], k) == Lookup(init, k)
  {
    if |init| > 0 {
      assert (init + [e])[1..] == init[1..] + [e];
      LookupAppend(init[1..], e, k);
    }
  }

  /** `BlogInputProcessor.apply`: a new data map from the kept, renamed and
      coerced data entries; a new metadata map from the kept metadata entries
      with the timestamp `now` put on top (overwriting any earlier value). The
      context is not a parameter: this stage never writes it. */
  function PreProcess(input: Envelope, now: string, h: Hooks): (r: Result<Envelope, PreError>)
    requires WellFormed(input)
    ensures r.Err? <==>
            HasNullAfterCoercion(input.data, h) || HasNullAfterCoercion(input.metadata, MetadataHooks(h))
    ensures r.Ok? ==> WellFormed(r.value)
    ensures r.Ok? ==> forall k :: Lookup(r.value.data, k) == LastValue(input.data, h, k)
    ensures r.Ok? ==> Lookup(r.value.metadata, ExecutedAtKey) == Some(Str(now))
    ensures r.Ok? ==> forall k :: k != ExecutedAtKey ==>
              Lookup(r.value.metadata, k) ==
              (match Lookup(input.metadata, k)
               case Some(v) => if h.keep(k, v) then Some(v) else None
               case None => None)
  {
    var data :- Collect(input.data, h);
    var meta :- Collect(input.metadata, MetadataHooks(h));
    forall k ensures Lookup(meta, k) ==
              (match Lookup(input.metadata, k)
               case Some(v) => if h.keep(k, v) then Some(v) else None
               case None => None)
    {
      LastValueIdentity(input.metadata, h, k);
    }
    Ok(Envelope(data, Put(meta, ExecutedAtKey, Str(now))))
  }

  /** With today's hooks and no null values the stage is the identity on data:
      the collected data map is the input data map. */
  lemma {:induction false} CurrentHooksKeepData(m: Entries<Value>)
    requires Unique(m)
    requires forall i :: 0 <= i < |m| ==> m[i].1 != Null
    ensures Collect(m, CurrentHooks()) == Ok(m)
  {
    if |m| > 0 {
      var h := CurrentHooks();
      var init := m[..|m| - 1];
      var e := m[|m| - 1];
      assert Unique(init);
      CurrentHooksKeepData(init);
      assert Passes(h, e) && h.renameKey(e.0) == e.0 && h.coerceValue(e.1) == e.1 != Null;
      CollectSnoc(m, h);
      assert e.0 !in KeySet(init) by {
        forall i | 0 <= i < |init| ensures init[i].0 != e.0 {
          assert init[i] == m[i];
        }
      }
      PutNew(init, e.0, e.1);
      InitLast(m);
    }
  }

  lemma InitLast<T>(m: seq<T>)
    requires |m| > 0
    ensures m[..|m| - 1] + [m[|m| - 1]] == m
  {
  }

  /** One step of `Collect`: a last entry that passes and is not nulled is put on the rest. */
  lemma CollectSnoc(m: Entries<Value>, h: Hooks)
    requires |m| > 0 && Collect(m[..|m| - 1], h).Ok?
    requires Passes(h, m[|m| - 1]) && h.coerceValue(m[|m| - 1].1) != Null
    ensures Collect(m, h) ==
            Ok(Put(Collect(m[..|m| - 1], h).value, h.renameKey(m[|m| - 1].0), h.coerceValue(m[|m| - 1].1)))
  {
  }
}
