/**
  The expiring cache of the working-context pilot: `Cache.put`, `get` and `purge`.
  The injected clock becomes a parameter: `now` is what `clock()` returns during the call.
*/
module PilotCache {
  import opened Wrappers

  type Key = string

  datatype Entry<V> = Entry(value: V, deadline: Option<real>)

  type Store<V> = map<Key, Entry<V>>

  predicate Expired<V>(e: Entry<V>, now: real) {
    e.deadline.Some? && now >= e.deadline.value
  }

  // ----- The effect of one call -----

  function PutIn<V>(m: Store<V>, key: Key, value: V, ttl: Option<real>, now: real): Store<V> {
    if ttl.Some? && ttl.value <= 0.0 then m - {key}
    else m[key := Entry(value, if ttl.None? then None else Some(now + ttl.value))]
  }

  function Lookup<V>(m: Store<V>, key: Key, now: real): Option<V> {
    if key in m && !Expired(m[key], now) then Some(m[key].value) else None
  }

  function ExpiredKeys<V>(m: Store<V>, now: real): set<Key> {
    set k | k in m && Expired(m[k], now)
  }

  class Cache<V> {
    var entries: Store<V>

    constructor ()
      ensures entries == map[]
    {
      entries := map[];
    }

    method Put(key: Key, value: V, ttl: Option<real>, now: real)
      modifies this
      ensures entries == PutIn(old(entries), key, value, ttl, now)
      ensures forall k | k != key :: k in entries <==> k in old(entries)
      ensures forall k | k != key && k in entries :: entries[k] == old(entries)[k]
      ensures match ttl
              case None => key in entries && entries[key] == Entry(value, None)
              case Some(t) =>
                if t <= 0.0 then key !in entries else key in entries && entries[key] == Entry(value, Some(now + t))
    {
      if ttl.Some? && ttl.value <= 0.0 {
        entries := entries - {key};
      } else {
        entries := entries[key := Entry(value, if ttl.None? then None else Some(now + ttl.value))];
      }
    }

    method Get(key: Key, default: V, now: real) returns (r: V)
      modifies this
      ensures r == match Lookup(old(entries), key, now) case Some(v) => v case None => default
      ensures entries == old(entries) - (ExpiredKeys(old(entries), now) * {key})
      ensures key !in old(entries) ==> r == default && entries == old(entries)
      ensures key in old(entries) ==>
                match old(entries)[key].deadline
                case None => r == old(entries)[key].value && entries == old(entries)
                case Some(d) =>
                  if now < d then r == old(entries)[key].value && entries == old(entries)
                  else r == default && entries == old(entries) - {key}
    {
      if key !in entries { return default; }
      var Entry(value, deadline) := entries[key];
      if deadline.Some? && now >= deadline.value {
        entries := entries - {key};
        return default;
      }
      return value;
    }

    /** Removes the stored entries whose deadline has passed and returns how many there were. */
    method Purge(now: real) returns (n: nat)
      modifies this
      ensures n == |ExpiredKeys(old(entries), now)|
      ensures entries == old(entries) - ExpiredKeys(old(entries), now)
      ensures n == |set k | k in old(entries) && k !in entries|
      ensures forall k :: k in entries <==>
                k in old(entries) && match old(entries)[k].deadline case None => true case Some(d) => now < d
    {
      var expired := set k | k in entries && Expired(entries[k], now);
      var rest := expired;
      while rest != {}
        invariant rest <= expired
        invariant entries == old(entries) - (expired - rest)
      {
        var k :| k in rest;
        entries := entries - {k};
        rest := rest - {k};
      }
      assert (set k | k in old(entries) && k !in entries) == expired;
      return |expired|;
    }
  }

  // ----- Histories: the cache, and an ideal map that never evicts -----

  datatype Op<V> = Put(key: Key, value: V, ttl: Option<real>) | Get(key: Key) | Purge

  datatype Call<V> = Call(at: real, op: Op<V>)

  function After<V>(m: Store<V>, c: Call<V>): Store<V> {
    match c.op
    case Put(k, v, ttl) => PutIn(m, k, v, ttl, c.at)
    case Get(k) => m - (ExpiredKeys(m, c.at) * {k})
    case Purge => m - ExpiredKeys(m, c.at)
  }

  /** What the `get` calls of a history find (`None`: they return their default). */
  function Answers<V>(m: Store<V>, calls: seq<Call<V>>): seq<Option<V>>
    decreases |calls|
  {
    if calls == [] then []
    else
      (if calls[0].op.Get? then [Lookup(m, calls[0].op.key, calls[0].at)] else [])
      + Answers(After(m, calls[0]), calls[1..])
  }

  /** The same for a map that keeps every entry until `put` replaces or removes it. */
  function IdealAnswers<V>(m: Store<V>, calls: seq<Call<V>>): seq<Option<V>>
    decreases |calls|
  {
    if calls == [] then []
    else match calls[0].op
      case Put(k, v, ttl) => IdealAnswers(PutIn(m, k, v, ttl, calls[0].at), calls[1..])
      case Get(k) => [Lookup(m, k, calls[0].at)] + IdealAnswers(m, calls[1..])
      case Purge => IdealAnswers(m, calls[1..])
  }

  function Times<V>(calls: seq<Call<V>>): seq<real> {
    seq(|calls|, i requires 0 <= i < |calls| => calls[i].at)
  }

  ghost predicate Nondecreasing(ts: seq<real>) {
    forall i, j | 0 <= i < j < |ts| :: ts[i] <= ts[j]
  }

  /** The cache holds a part of the ideal map; what it lacks had expired by time `t`. */
  ghost predicate Evicted<V(!new)>(m: Store<V>, ideal: Store<V>, t: real) {
    && (forall k | k in m :: k in ideal && ideal[k] == m[k])
    && (forall k | k in ideal && k !in m :: Expired(ideal[k], t))
  }

  function IdealAfter<V>(ideal: Store<V>, c: Call<V>): Store<V> {
    if c.op.Put? then PutIn(ideal, c.op.key, c.op.value, c.op.ttl, c.at) else ideal
  }

  lemma EvictedStep<V(!new)>(m: Store<V>, ideal: Store<V>, t: real, c: Call<V>)
    requires Evicted(m, ideal, t) && t <= c.at
    ensures Evicted(After(m, c), IdealAfter(ideal, c), c.at)
    ensures c.op.Get? ==> Lookup(m, c.op.key, c.at) == Lookup(ideal, c.op.key, c.at)
  {
  }

  lemma {:induction false} EvictionIsInvisible<V(!new)>(m: Store<V>, ideal: Store<V>, t: real, calls: seq<Call<V>>)
    requires Evicted(m, ideal, t)
    requires Nondecreasing([t] + Times(calls))
    ensures Answers(m, calls) == IdealAnswers(ideal, calls)
    decreases |calls|
  {
    if calls != [] {
      var c, rest := calls[0], calls[1..];
      var ts := [t] + Times(calls);
      assert ts[0] <= ts[1] == c.at;
      assert [c.at] + Times(rest) == ts[1..];
      EvictedStep(m, ideal, t, c);
      EvictionIsInvisible(After(m, c), IdealAfter(ideal, c), c.at, rest);
    }
  }

  // ----- Main results -----

  /** Under a clock that never goes back, the cache answers as the map that never evicts. */
  lemma CacheRefinesIdealMap<V(!new)>(m: Store<V>, calls: seq<Call<V>>)
    requires Nondecreasing(Times(calls))
    ensures Answers(m, calls) == IdealAnswers(m, calls)
  {
    if calls != [] {
      var t := calls[0].at;
      assert Times(calls)[0] == t;
      EvictionIsInvisible(m, m, t, calls);
    }
  }

  lemma {:induction false} IdealKeepsEntry<V>(m: Store<V>, key: Key, between: seq<Call<V>>, t: real)
    requires forall c | c in between :: c.op.Put? ==> c.op.key != key
    ensures var answers := IdealAnswers(m, between + [Call(t, Get(key))]);
      answers != [] && answers[|answers| - 1] == Lookup(m, key, t)
    decreases |between|
  {
    var last := Call(t, Op<V>.Get(key));
    if between == [] {
      assert between + [last] == [last] && [last][1..] == [];
    } else {
      var c := between[0];
      assert (between + [last])[0] == c && (between + [last])[1..] == between[1..] + [last];
      assert c in between;
      IdealKeepsEntry(IdealAfter(m, c), key, between[1..], t);
    }
  }

  /**
    The life of an entry: `get` finds what the latest `put` of its key stored exactly before the
    deadline, or for ever without one, and never when the time to live was not positive.
   */
  lemma GetSeesLatestPut<V(!new)>(
      m: Store<V>, t0: real, key: Key, value: V, ttl: Option<real>, between: seq<Call<V>>, t: real)
    requires Nondecreasing(Times([Call(t0, Put(key, value, ttl))] + between + [Call(t, Get(key))]))
    requires forall c | c in between :: c.op.Put? ==> c.op.key != key
    ensures var answers := Answers(m, [Call(t0, Put(key, value, ttl))] + between + [Call(t, Get(key))]);
      && answers != []
      && answers[|answers| - 1]
         == if ttl.None? || (ttl.value > 0.0 && t < t0 + ttl.value) then Some(value) else None
  {
    var put, get := Call(t0, Put(key, value, ttl)), Call(t, Op<V>.Get(key));
    var calls := [put] + between + [get];
    CacheRefinesIdealMap(m, calls);
    assert calls[0] == put && calls[1..] == between + [get];
    IdealKeepsEntry(PutIn(m, key, value, ttl, t0), key, between, t);
  }

  function WithoutPurges<V>(calls: seq<Call<V>>): seq<Call<V>> {
    if calls == [] then []
    else (if calls[0].op.Purge? then [] else [calls[0]]) + WithoutPurges(calls[1..])
  }

  lemma {:induction false} IdealIgnoresPurges<V>(m: Store<V>, calls: seq<Call<V>>)
    ensures IdealAnswers(m, calls) == IdealAnswers(m, WithoutPurges(calls))
    decreases |calls|
  {
    if calls != [] {
      var c, w := calls[0], WithoutPurges(calls[1..]);
      assert WithoutPurges(calls) == if c.op.Purge? then w else [c] + w;
      assert ([c] + w)[0] == c && ([c] + w)[1..] == w;
      match c.op
      case Put(k, v, ttl) => IdealIgnoresPurges(PutIn(m, k, v, ttl, c.at), calls[1..]);
      case Get(_) => IdealIgnoresPurges(m, calls[1..]);
      case Purge => IdealIgnoresPurges(m, calls[1..]);
    }
  }

  /** Histories that differ only in their `purge` calls get the same answers. */
  lemma PurgesAreInvisible<V(!new)>(m: Store<V>, calls: seq<Call<V>>, others: seq<Call<V>>)
    requires Nondecreasing(Times(calls)) && Nondecreasing(Times(others))
    requires WithoutPurges(calls) == WithoutPurges(others)
    ensures Answers(m, calls) == Answers(m, others)
  {
    CacheRefinesIdealMap(m, calls);
    CacheRefinesIdealMap(m, others);
    IdealIgnoresPurges(m, calls);
    IdealIgnoresPurges(m, others);
  }

  /** A clock reading that goes back at `i` lets some history tell the cache from the ideal map. */
  lemma {:induction false} ClockGoesBack<V>(ts: seq<real>, i: nat, v: V, m: Store<V>) returns (calls: seq<Call<V>>)
    requires i + 1 < |ts| && ts[i] > ts[i + 1]
    requires m == map["a" := Entry(v, Some(ts[i]))]
    ensures Times(calls) == ts
    ensures Answers(m, calls) != IdealAnswers(m, calls)
    decreases i
  {
    if i == 0 {
      var rest := seq(|ts| - 2, j requires 0 <= j < |ts| - 2 => Call(ts[j + 2], Get("b")));
      var first, second := Call(ts[0], Get("a")), Call(ts[1], Get("a"));
      calls := [first, second] + rest;
      assert calls[1..] == [second] + rest;
      assert After(m, first) == map[];
      assert ([second] + rest)[1..] == rest;
      var gone, kept := Answers(map[], [second] + rest), IdealAnswers(m, [second] + rest);
      assert gone[0] == None && kept[0] == Some(v);
      assert Answers(m, calls)[1..] == gone && IdealAnswers(m, calls)[1..] == kept;
    } else {
      var rest := ClockGoesBack(ts[1..], i - 1, v, m);
      var first := Call(ts[0], Get("b"));
      calls := [first] + rest;
      assert calls[1..] == rest;
      assert After(m, first) == m;
      assert Times(calls) == [ts[0]] + Times(rest);
      assert Answers(m, calls)[1..] == Answers(m, rest);
      assert IdealAnswers(m, calls)[1..] == IdealAnswers(m, rest);
    }
  }

  /** The clock readings under which the cache refines the ideal map, whatever is stored and called. */
  lemma RefinesExactlyWhenClockIsMonotone<V(!new)>(ts: seq<real>, v: V)
    ensures Nondecreasing(ts) <==>
            (forall m: Store<V>, calls: seq<Call<V>> | Times(calls) == ts ::
               Answers(m, calls) == IdealAnswers(m, calls))
  {
    if Nondecreasing(ts) {
      forall m: Store<V>, calls: seq<Call<V>> | Times(calls) == ts ensures Answers(m, calls) == IdealAnswers(m, calls) {
        CacheRefinesIdealMap(m, calls);
      }
    } else {
      var i := SomeStepBack(ts);
      var m: Store<V> := map["a" := Entry(v, Some(ts[i]))];
      var calls := ClockGoesBack(ts, i, v, m);
    }
  }

  lemma {:induction false} SomeStepBack(ts: seq<real>) returns (i: nat)
    requires !Nondecreasing(ts)
    ensures i + 1 < |ts| && ts[i] > ts[i + 1]
    decreases |ts|
  {
    if ts[0] > ts[1] {
      return 0;
    }
    var j := SomeStepBack(ts[1..]);
    return j + 1;
  }
}
