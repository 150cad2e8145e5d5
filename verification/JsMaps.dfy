/** A string-keyed `Map`: entries in insertion order, and the bounded memo table built on it. */
module JsMaps {

  datatype JsMap<V> = JsMap(order: seq<string>, at: map<string, V>)
  {
    /** The order lists every key once. */
    ghost predicate Ok() {
      && (forall k :: k in order <==> k in at)
      && (forall i, j :: 0 <= i < j < |order| ==> order[i] != order[j])
    }

    /** A known key keeps its place. */
    function Set(k: string, v: V): JsMap<V> {
      JsMap(if k in at then order else order + [k], at[k := v])
    }

    /** Deletes the oldest entry. */
    function DropOldest(): JsMap<V> {
      if order == [] then this else JsMap(order[1..], at - {order[0]})
    }

    /** What both caches do on a miss: evict the oldest entry once full, then store. */
    function Store(cap: nat, k: string, v: V): JsMap<V> {
      (if |order| >= cap then DropOldest() else this).Set(k, v)
    }

    lemma SetIsOk(k: string, v: V)
      requires Ok()
      ensures Set(k, v).Ok()
    {
    }

    lemma DropIsOk()
      requires Ok()
      ensures DropOldest().Ok()
      ensures forall k :: k in DropOldest().at ==> k in at && DropOldest().at[k] == at[k]
    {
      if order != [] {
        assert order == [order[0]] + order[1..];
        forall k ensures k in DropOldest().order <==> k in DropOldest().at {
          if k in order[1..] {
            var i :| 0 <= i < |order[1..]| && order[1..][i] == k;
            assert order[i + 1] == k;
          }
        }
      }
    }

    /** Storing never exceeds the capacity, keeps what it does not evict, and holds the new entry. */
    lemma StoreIsBounded(cap: nat, k: string, v: V)
      requires Ok() && k !in at && cap > 0 && |order| <= cap
      ensures Store(cap, k, v).Ok() && |Store(cap, k, v).order| <= cap
      ensures k in Store(cap, k, v).at && Store(cap, k, v).at[k] == v
      ensures forall j :: j in Store(cap, k, v).at && j != k ==> j in at && Store(cap, k, v).at[j] == at[j]
    {
      DropIsOk();
      (if |order| >= cap then DropOldest() else this).SetIsOk(k, v);
    }
  }

  /** First in, first out: of all keys stored so far the table holds the most recent ones, up to its
      capacity, in the order they came. */
  ghost predicate HoldsLatest<V>(m: JsMap<V>, stored: seq<string>, cap: nat) {
    |m.order| == (if |stored| < cap then |stored| else cap) && m.order == stored[|stored| - |m.order|..]
  }

  lemma StoreHoldsLatest<V>(m: JsMap<V>, stored: seq<string>, cap: nat, k: string, v: V)
    requires m.Ok() && k !in m.at && cap > 0 && HoldsLatest(m, stored, cap)
    ensures HoldsLatest(m.Store(cap, k, v), stored + [k], cap)
  {
    m.DropIsOk();
  }
}
