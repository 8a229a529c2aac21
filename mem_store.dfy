/** The store of the safe-mode build (app.safe.js): a plain object `_m` held
    in memory, with no durable backend and no failure path. */
module MemStore {
  import opened Values

  /** `get(k, d)`: the held value if the key is present, else the default. */
  function Lookup(m: map<string, Value>, k: string, d: Value): (v: Value)
    ensures k in m ==> v == m[k]
    ensures k !in m ==> v == d
  {
    if k in m then m[k] else d
  }

  /** After `set(k, v)`, `k` reads `v` and every other key reads as before. */
  lemma SetThenGet(m: map<string, Value>, k: string, v: Value, k2: string, d: Value)
    ensures Lookup(m[k := v], k2, d) == if k2 == k then v else Lookup(m, k2, d)
  {
  }

  class Store {
    var m: map<string, Value>

    constructor ()
      ensures m == map[]
    {
      m := map[];
    }

    function Get(k: string, d: Value): Value
      reads this
    {
      Lookup(m, k, d)
    }

    /** `set`: overwrites `k` and no other key. */
    method Set(k: string, v: Value)
      modifies this
      ensures m == old(m)[k := v]
    {
      m := m[k := v];
    }
  }
}
