/** The storage wrapper of app.v3.js: a thin pass-through to the browser's
    durable backend with no memory fallback. Reads swallow every error and
    answer the default; writes let a throwing backend's exception escape to
    the caller. */
module PlainStore {
  import opened Values

  const GoalKey: string := "fd_goal_daily_xp"
  const DailyMinutesKey: string := "fd_daily_minutes"
  const WeeklyHoursKey: string := "fd_weekly_hours"
  const XpKey: string := "fd_xp_by_day"
  const FlagsKey: string := "fd_flags_by_day"
  const VocabKey: string := "fd_vocab_list"
  const SeedKey: string := "fd_due_seed"
  const DataVersionKey: string := "fd_data_v1"

  /** `Object.values(K)`: the eight keys this build exports and resets. */
  const AllKeys: seq<string> :=
    [GoalKey, DailyMinutesKey, WeeklyHoursKey, XpKey, FlagsKey, VocabKey, SeedKey, DataVersionKey]

  /** `JSON.parse(localStorage.getItem(k)) ?? def`, with any throw answered
      by `def`. An absent key reads as the text "null". */
  function Read(backend: map<string, Text>, k: string, def: Value, fails: bool): (v: Value)
    ensures fails || k !in backend || Parse(backend[k]) == None || Parse(backend[k]) == Some(Null) ==> v == def
    ensures !fails && k in backend && Parse(backend[k]).Some? && Parse(backend[k]).value != Null ==>
      v == Parse(backend[k]).value
  {
    if fails || k !in backend then def
    else match Parse(backend[k])
      case None => def
      case Some(x) => OrDefault(x, def)
  }

  /** A value written and read back is the value itself, except that a
      written `null` reads back as the default. */
  lemma WriteThenRead(backend: map<string, Text>, k: string, v: Value, def: Value)
    requires v != Undefined
    ensures Read(backend[k := Stringify(v)], k, def, false) == if v == Null then def else v
  {
  }

  class Store {
    var backend: map<string, Text>

    constructor (backend0: map<string, Text>)
      ensures backend == backend0
    {
      backend := backend0;
    }

    function Get(k: string, def: Value, fails: bool): Value
      reads this
    {
      Read(backend, k, def, fails)
    }

    /** `set`: on a throwing backend nothing is written and the exception
        (reported as `threw`) reaches the caller. */
    method Set(k: string, v: Value, fails: bool) returns (threw: bool)
      modifies this
      ensures threw == fails
      ensures backend == if fails then old(backend) else old(backend)[k := Stringify(v)]
    {
      if fails {
        return true;
      }
      backend := backend[k := Stringify(v)];
      threw := false;
    }
  }

  /** The backup object of app.v3.js:191-198: every key of `AllKeys` read
      with no default, undefined results left out by JSON.stringify. */
  method Export(store: Store, failing: set<string>) returns (data: map<string, Value>)
    ensures forall k :: k in data <==> k in AllKeys && store.Get(k, Undefined, k in failing) != Undefined
    ensures forall k :: k in data ==> data[k] == store.Get(k, Undefined, k in failing)
  {
    data := map[];
    for i := 0 to |AllKeys|
      invariant forall k :: k in data <==> k in AllKeys[..i] && store.Get(k, Undefined, k in failing) != Undefined
      invariant forall k :: k in data ==> data[k] == store.Get(k, Undefined, k in failing)
    {
      var k := AllKeys[i];
      var v := store.Get(k, Undefined, k in failing);
      if v != Undefined {
        data := data[k := v];
      }
      assert AllKeys[..i + 1] == AllKeys[..i] + [k];
    }
    assert AllKeys[..|AllKeys|] == AllKeys;
  }

  /** Restoring a backup in app.v3.js:199-209 writes every entry of the
      parsed file straight to the backend. The first write that throws
      abandons the rest, and the entries written before it stay written;
      `ok` says whether the whole file was applied. A file that does not
      parse, or whose entries cannot be listed, writes nothing. The order in
      which the entries are visited is left open. */
  method Import(store: Store, parsed: Option<Value>, failing: set<string>) returns (ok: bool)
    modifies store
    ensures parsed.None? || Entries(parsed.value).None? ==> !ok && store.backend == old(store.backend)
    ensures parsed.Some? && Entries(parsed.value).Some? ==>
      var entries := Entries(parsed.value).value;
      && (ok <==> entries.Keys !! failing)
      && (forall k :: k !in entries || k in failing ==>
            (k in store.backend <==> k in old(store.backend)) &&
            (k in store.backend ==> store.backend[k] == old(store.backend)[k]))
      && (forall k :: k in entries ==>
            (k in store.backend && store.backend[k] == Stringify(entries[k])) ||
            ((k in store.backend <==> k in old(store.backend)) &&
             (k in store.backend ==> store.backend[k] == old(store.backend)[k])))
      && (ok ==> store.backend == old(store.backend) + map k | k in entries :: Stringify(entries[k]))
  {
    if parsed.None? || Entries(parsed.value).None? {
      return false;
    }
    var entries := Entries(parsed.value).value;
    var rest := entries.Keys;
    ghost var done: set<string> := {};
    while rest != {}
      invariant rest + done == entries.Keys && rest !! done
      invariant done !! failing
      invariant forall k :: k !in done ==>
        (k in store.backend <==> k in old(store.backend)) &&
        (k in store.backend ==> store.backend[k] == old(store.backend)[k])
      invariant store.backend == old(store.backend) + map k | k in done :: Stringify(entries[k])
      decreases rest
    {
      var k :| k in rest;
      var threw := store.Set(k, entries[k], k in failing);
      if threw {
        return false;
      }
      rest := rest - {k};
      done := done + {k};
    }
    return true;
  }

  /** The factory reset of app.v3.js:210-214: once the user confirms, it
      removes the eight keys and nothing else; cancelled, it removes
      nothing. */
  method FactoryReset(store: Store, confirmed: bool)
    modifies store
    ensures confirmed ==> store.backend == old(store.backend) - set k | k in AllKeys
    ensures !confirmed ==> store.backend == old(store.backend)
  {
    if !confirmed {
      return;
    }
    for i := 0 to |AllKeys|
      invariant store.backend == old(store.backend) - set k | k in AllKeys[..i]
    {
      store.backend := store.backend - {AllKeys[i]};
      assert AllKeys[..i + 1] == AllKeys[..i] + [AllKeys[i]];
    }
    assert AllKeys[..|AllKeys|] == AllKeys;
  }
}
