/** The storage adapter of the protected builds (app.v7.js and app.v6.js,
    which are the same code): a closure holding a `persistent` flag and a
    volatile `mem` object in front of the browser's durable key/value
    backend. A start-up probe, or any backend access that throws, turns
    `persistent` off for the rest of the session; from then on reads and
    writes use `mem` only.

    The backend is a map from key to stored text. Whether a backend access
    throws (quota exceeded, storage blocked) is not decided by the model: each
    operation receives a `fails` argument saying whether its backend access
    throws. */
module ResilientStore {
  import opened Values

  /** The throwaway key the start-up probe writes and then removes. */
  const ProbeKey: string := "__t"

  /** How the start-up probe ends: both calls succeed, the write throws, or
      the write succeeds and the removal throws (leaving the text "1"). */
  datatype Probe = ProbeOk | WriteThrows | RemoveThrows

  /** Everything the adapter's operations read or change. */
  datatype State = State(persistent: bool, mem: map<string, Value>, backend: map<string, Text>)

  /** `k in mem ? mem[k] : d` */
  function MemOr(s: State, k: string, d: Value): Value {
    if k in s.mem then s.mem[k] else d
  }

  /** The state right after the closure has run its probe. */
  function Start(backend: map<string, Text>, probe: Probe): State {
    match probe
    case ProbeOk => State(true, map[], backend - {ProbeKey})
    case WriteThrows => State(false, map[], backend)
    case RemoveThrows => State(false, map[], backend[ProbeKey := Encoded(Num(1))])
  }

  /** `get(k, d)`: the new state and the value returned. */
  function GetStep(s: State, k: string, d: Value, fails: bool): (State, Value) {
    if s.persistent && !fails && k !in s.backend then (s, d)
    else if s.persistent && !fails && Parse(s.backend[k]).Some? then (s, Parse(s.backend[k]).value)
    else (s.(persistent := false), MemOr(s, k, d))
  }

  /** `set(k, v)`: the new state and whether the value reached the backend. */
  function SetStep(s: State, k: string, v: Value, fails: bool): (State, bool) {
    if s.persistent && !fails then (s.(backend := s.backend[k := Stringify(v)]), true)
    else (s.(persistent := false, mem := s.mem[k := v]), false)
  }

  /** `clear()`: the backend is cleared when that does not throw, whatever
      the mode (a throw here is swallowed and does not change the mode);
      `mem` is always emptied. */
  function ClearStep(s: State, fails: bool): State {
    s.(mem := map[], backend := if fails then s.backend else map[])
  }

  /** One call on the adapter, with its failure oracle. */
  datatype Op =
    | GetOp(k: string, d: Value, fails: bool)
    | SetOp(k: string, v: Value, fails: bool)
    | ClearOp(fails: bool)

  function Step(s: State, op: Op): State {
    match op
    case GetOp(k, d, f) => GetStep(s, k, d, f).0
    case SetOp(k, v, f) => SetStep(s, k, v, f).0
    case ClearOp(f) => ClearStep(s, f)
  }

  /** The state after a session's calls, in order. */
  function Run(s: State, ops: seq<Op>): State
    decreases |ops|
  {
    if ops == [] then s else Run(Step(s, ops[0]), ops[1..])
  }

  /** What `mem` holds for `k` after `ops` run in memory-only mode, starting
      from `held`: the value of the latest `set` of `k`, unless a `clear`
      came after it. */
  function MemView(ops: seq<Op>, k: string, held: Option<Value>): Option<Value>
    decreases |ops|
  {
    if ops == [] then held
    else
      var next := match ops[0]
        case SetOp(k', v, _) => if k' == k then Some(v) else held
        case ClearOp(_) => None
        case GetOp(_, _, _) => held;
      MemView(ops[1..], k, next)
  }

  // ---------------------------------------------------------------------
  // Properties of single calls

  /** The probe decides the starting mode: persistent exactly when both probe
      calls succeed, with an empty `mem` either way. */
  lemma StartMode(backend: map<string, Text>, probe: Probe)
    ensures Start(backend, probe).persistent <==> probe == ProbeOk
    ensures Start(backend, probe).mem == map[]
    ensures probe == ProbeOk ==> ProbeKey !in Start(backend, probe).backend
  {
  }

  /** `set` reports true exactly when the store was persistent and the
      backend write did not throw; otherwise the value lands in `mem` and the
      store is memory-only from then on. A persisted write is not mirrored
      into `mem`. */
  lemma SetOutcome(s: State, k: string, v: Value, fails: bool)
    ensures var (s', ok) := SetStep(s, k, v, fails);
      && (ok <==> s.persistent && !fails)
      && (ok ==> s'.persistent && s'.mem == s.mem && s'.backend == s.backend[k := Stringify(v)])
      && (!ok ==> !s'.persistent && s'.mem == s.mem[k := v] && s'.backend == s.backend)
  {
  }

  /** `get` never writes. A missing key in persistent mode gives the default
      and changes nothing; a throwing read or unparsable stored text turns
      the store memory-only and answers from `mem` or the default. */
  lemma GetOutcome(s: State, k: string, d: Value, fails: bool)
    ensures var (s', v) := GetStep(s, k, d, fails);
      && s'.mem == s.mem && s'.backend == s.backend
      && (s'.persistent ==> s.persistent)
      && (s.persistent && !fails && k !in s.backend ==> s' == s && v == d)
      && (s.persistent && !fails && k in s.backend && Parse(s.backend[k]).Some? ==>
            s' == s && v == Parse(s.backend[k]).value)
      && (fails || !s.persistent || (k in s.backend && Parse(s.backend[k]).None?) ==>
            !s'.persistent && v == MemOr(s, k, d))
  {
  }

  /** Reading a key right after writing it gives the written value back,
      except when the write reached the backend and the read then throws:
      the write was not mirrored, so that read falls back to `mem`. */
  lemma SetThenGet(s: State, k: string, v: Value, d: Value, f1: bool, f2: bool)
    requires v != Undefined
    ensures var (s1, ok) := SetStep(s, k, v, f1);
      var (_, r) := GetStep(s1, k, d, f2);
      && (!ok || !f2 ==> r == v)
      && (ok && f2 ==> r == MemOr(s, k, d))
  {
  }

  // ---------------------------------------------------------------------
  // Properties of whole sessions

  /** The mode changes one way only: no sequence of calls turns a
      memory-only store back into a persistent one. */
  lemma {:induction false} PersistenceNeverReturns(s: State, ops: seq<Op>)
    ensures Run(s, ops).persistent ==> s.persistent
    decreases |ops|
  {
    if ops != [] {
      PersistenceNeverReturns(Step(s, ops[0]), ops[1..]);
    }
  }

  /** Once memory-only, the backend is never written again except by `clear`,
      and a read of `k` answers the latest value set for `k` since the
      downgrade (or held in `mem` at that point), else the default. */
  lemma {:induction false} MemoryModeReads(s: State, ops: seq<Op>, k: string, d: Value, fails: bool)
    requires !s.persistent
    ensures !Run(s, ops).persistent
    ensures (forall op :: op in ops ==> !op.ClearOp?) ==> Run(s, ops).backend == s.backend
    ensures var held := if k in s.mem then Some(s.mem[k]) else None;
      GetStep(Run(s, ops), k, d, fails).1 ==
        match MemView(ops, k, held) case Some(v) => v case None => d
    decreases |ops|
  {
    if ops != [] {
      var s1 := Step(s, ops[0]);
      MemoryModeReads(s1, ops[1..], k, d, fails);
      assert forall op :: op in ops[1..] ==> op in ops;
    }
  }

  /** Values written while the store was persistent are not visible after it
      turns memory-only: the backend keeps them, but reads no longer consult
      it, and `mem` never saw them. */
  lemma PreDowngradeWriteInvisible(s: State, k: string, v: Value, k2: string, w: Value, d: Value, f: bool)
    requires s.persistent && k != k2 && k !in s.mem
    ensures var s2 := Run(s, [SetOp(k, v, false), SetOp(k2, w, true)]);
      && k in s2.backend && s2.backend[k] == Stringify(v)
      && !s2.persistent
      && GetStep(s2, k, d, f).1 == d
  {
    var s1 := SetStep(s, k, v, false).0;
    var s2 := SetStep(s1, k2, w, true).0;
    var ops := [SetOp(k, v, false), SetOp(k2, w, true)];
    assert ops[1..] == [SetOp(k2, w, true)];
    assert [SetOp(k2, w, true)][1..] == [];
    assert Run(s2, []) == s2;
    assert Run(s1, [SetOp(k2, w, true)]) == s2;
    assert Run(s, ops) == s2;
  }

  // ---------------------------------------------------------------------
  // The adapter object

  class Store {
    var persistent: bool
    var mem: map<string, Value>
    var backend: map<string, Text>

    function Model(): State
      reads this
    {
      State(persistent, mem, backend)
    }

    /** `isPersistent()` */
    function IsPersistent(): bool
      reads this
    {
      persistent
    }

    /** Creating the closure runs the probe against the backend. */
    constructor (backend0: map<string, Text>, probe: Probe)
      ensures Model() == Start(backend0, probe)
    {
      var p := true;
      var b := backend0;
      if probe == WriteThrows {
        p := false;
      } else {
        b := b[ProbeKey := Encoded(Num(1))];
        if probe == RemoveThrows {
          p := false;
        } else {
          b := b - {ProbeKey};
        }
      }
      assert probe == ProbeOk ==> b == backend0 - {ProbeKey};
      persistent, mem, backend := p, map[], b;
    }

    method Get(k: string, d: Value, fails: bool) returns (v: Value)
      modifies this
      ensures (Model(), v) == GetStep(old(Model()), k, d, fails)
      ensures persistent ==> old(persistent)
      ensures mem == old(mem) && backend == old(backend)
    {
      if persistent {
        if fails {
          persistent := false;
        } else if k !in backend {
          return d;
        } else {
          var parsed := Parse(backend[k]);
          if parsed.Some? {
            return parsed.value;
          }
          persistent := false;
        }
      }
      v := if k in mem then mem[k] else d;
    }

    method Set(k: string, v: Value, fails: bool) returns (ok: bool)
      modifies this
      ensures (Model(), ok) == SetStep(old(Model()), k, v, fails)
      ensures persistent ==> old(persistent)
      ensures ok <==> old(persistent) && !fails
    {
      if persistent {
        if !fails {
          backend := backend[k := Stringify(v)];
          return true;
        }
        persistent := false;
      }
      mem := mem[k := v];
      ok := false;
    }

    method Clear(fails: bool)
      modifies this
      ensures Model() == ClearStep(old(Model()), fails)
      ensures persistent == old(persistent)
    {
      if !fails {
        backend := map[];
      }
      mem := map[];
    }
  }

  // ---------------------------------------------------------------------
  // Backup export and import (app.v7.js:132-141, app.v6.js:183-196)

  const GoalKey: string := "fd_goal_daily_xp"
  const DailyMinutesKey: string := "fd_daily_minutes"
  const WeeklyHoursKey: string := "fd_weekly_hours"
  const XpKey: string := "fd_xp_by_day"
  const FlagsKey: string := "fd_flags_by_day"
  const VocabKey: string := "fd_vocab_list"
  const SeedKey: string := "fd_due_seed"

  /** The seven keys a backup holds, in the order they are read. */
  const ExportKeys: seq<string> :=
    [GoalKey, DailyMinutesKey, WeeklyHoursKey, XpKey, FlagsKey, VocabKey, SeedKey]

  /** The state and the collected object after reading the first keys of
      `keys` with `get(k)` (no default), where a read of a key in `failing`
      throws. An `undefined` result is left out of the object, as
      JSON.stringify leaves out undefined properties. */
  function ExportFold(s: State, keys: seq<string>, failing: set<string>): (State, map<string, Value>)
    decreases |keys|
  {
    if keys == [] then (s, map[])
    else
      var (s1, data) := ExportFold(s, keys[..|keys| - 1], failing);
      var k := keys[|keys| - 1];
      var (s2, v) := GetStep(s1, k, Undefined, k in failing);
      (s2, if v.Undefined? then data - {k} else data[k := v])
  }

  /** The exported object names only backup keys, and never an undefined value. */
  lemma {:induction false} ExportFoldKeys(s: State, keys: seq<string>, failing: set<string>)
    ensures var (_, data) := ExportFold(s, keys, failing);
      (forall k :: k in data ==> k in keys && data[k] != Undefined)
    decreases |keys|
  {
    if keys != [] {
      ExportFoldKeys(s, keys[..|keys| - 1], failing);
      assert forall j :: j in keys[..|keys| - 1] ==> j in keys;
    }
  }

  /** With a healthy persistent backend, a backup holds exactly the backup
      keys present in the backend, each with its parsed value, and taking it
      changes nothing. */
  lemma {:induction false} ExportHealthy(s: State, keys: seq<string>)
    requires s.persistent
    requires forall k :: k in keys && k in s.backend ==> Parse(s.backend[k]).Some?
    ensures var (s', data) := ExportFold(s, keys, {});
      && s' == s
      && (forall k :: k in data <==> k in keys && k in s.backend)
      && (forall k :: k in data ==> Parse(s.backend[k]) == Some(data[k]))
    decreases |keys|
  {
    if keys != [] {
      ExportHealthy(s, keys[..|keys| - 1]);
      var k := keys[|keys| - 1];
      assert forall j :: j in keys <==> j in keys[..|keys| - 1] || j == k by {
        assert keys == keys[..|keys| - 1] + [k];
      }
    }
  }

  /** Taking a backup reads every backup key through `get`, in order. */
  method Export(store: Store, failing: set<string>) returns (data: map<string, Value>)
    modifies store
    ensures (store.Model(), data) == ExportFold(old(store.Model()), ExportKeys, failing)
    ensures store.persistent ==> old(store.persistent)
  {
    data := map[];
    for i := 0 to |ExportKeys|
      invariant (store.Model(), data) == ExportFold(old(store.Model()), ExportKeys[..i], failing)
      invariant store.persistent ==> old(store.persistent)
    {
      var k := ExportKeys[i];
      var v := store.Get(k, Undefined, k in failing);
      data := if v.Undefined? then data - {k} else data[k := v];
      assert ExportKeys[..i + 1][..i] == ExportKeys[..i];
    }
    assert ExportKeys[..|ExportKeys|] == ExportKeys;
  }

  /** Restoring a backup: `set` for every entry of the parsed file. A file
      that does not parse (`parsed == None`), or whose entries cannot be
      listed, writes nothing. The order in which object entries are visited
      is left open; `failing` names the keys whose backend write throws. */
  method Import(store: Store, parsed: Option<Value>, failing: set<string>)
    modifies store
    ensures parsed.None? || Entries(parsed.value).None? ==> store.Model() == old(store.Model())
    ensures store.persistent ==> old(store.persistent)
    ensures parsed.Some? && Entries(parsed.value).Some? ==>
      var entries := Entries(parsed.value).value;
      && (forall k :: k !in entries ==>
            (k in store.backend <==> k in old(store.backend)) &&
            (k in store.backend ==> store.backend[k] == old(store.backend)[k]) &&
            (k in store.mem <==> k in old(store.mem)) &&
            (k in store.mem ==> store.mem[k] == old(store.mem)[k]))
      && (forall k :: k in entries ==>
            (k in store.backend && store.backend[k] == Stringify(entries[k])) ||
            (k in store.mem && store.mem[k] == entries[k] && !store.persistent))
      && (old(store.persistent) && entries.Keys !! failing ==>
            store.persistent && store.mem == old(store.mem) &&
            store.backend == old(store.backend) + map k | k in entries :: Stringify(entries[k]))
  {
    if parsed.None? || Entries(parsed.value).None? {
      return;
    }
    var entries := Entries(parsed.value).value;
    var rest := entries.Keys;
    ghost var done: set<string> := {};
    while rest != {}
      invariant rest + done == entries.Keys && rest !! done
      invariant store.persistent ==> old(store.persistent)
      invariant forall k :: k !in done ==>
        (k in store.backend <==> k in old(store.backend)) &&
        (k in store.backend ==> store.backend[k] == old(store.backend)[k]) &&
        (k in store.mem <==> k in old(store.mem)) &&
        (k in store.mem ==> store.mem[k] == old(store.mem)[k])
      invariant forall k :: k in done ==>
        (k in store.backend && store.backend[k] == Stringify(entries[k])) ||
        (k in store.mem && store.mem[k] == entries[k] && !store.persistent)
      invariant old(store.persistent) && entries.Keys !! failing ==>
        store.persistent && store.mem == old(store.mem) &&
        store.backend == old(store.backend) + map k | k in done :: Stringify(entries[k])
      decreases rest
    {
      var k :| k in rest;
      var _ := store.Set(k, entries[k], k in failing);
      rest := rest - {k};
      done := done + {k};
    }
  }

  /** Taking a backup of a healthy persistent store and restoring it at once
      leaves the store exactly as it was. */
  lemma ExportImportRoundTrip(s: State)
    requires s.persistent
    requires forall k :: k in ExportKeys && k in s.backend ==> Parse(s.backend[k]).Some?
    ensures var (s1, data) := ExportFold(s, ExportKeys, {});
      s1 == s &&
      s.backend + (map k | k in data :: Stringify(data[k])) == s.backend
  {
    ExportHealthy(s, ExportKeys);
    var (s1, data) := ExportFold(s, ExportKeys, {});
    forall k | k in data
      ensures Stringify(data[k]) == s.backend[k]
    {
      ParseDeterminesText(s.backend[k], data[k]);
    }
  }
}
