/**
  The replay-safe ledger of the working-context pilot: `Ledger.apply` and its contract text.
*/
module PilotLedger {
  import opened Wrappers
  import opened Totals

  /** What `e.get(...)` may return: a missing key reads as `NoneValue`; floats, lists and the rest are `OtherValue`. */
  datatype PyValue = NoneValue | BoolValue(b: bool) | IntValue(n: int) | StrValue(s: string) | OtherValue

  datatype RawEvent = NotADict | Dict(id: PyValue, account: PyValue, amount: PyValue)

  datatype Reason = BadEvent | BadIdentity | BadAmount | Conflict

  /** The account and amount an id stands for. */
  type Posting = (string, int)

  datatype Books = Books(balances: map<string, int>, seen: map<string, Posting>)

  predicate Name(v: PyValue) {
    v.StrValue? && v.s != ""
  }

  predicate WellFormed(e: RawEvent) {
    e.Dict? && Name(e.id) && Name(e.account) && e.amount.IntValue?
  }

  function Value(e: RawEvent): Posting
    requires WellFormed(e)
  {
    (e.account.s, e.amount.n)
  }

  // ----- One call, event by event -----

  function Step(b: Books, e: RawEvent): Result<Books, Reason> {
    if e.NotADict? then Raised(BadEvent)
    else if !Name(e.id) || !Name(e.account) then Raised(BadIdentity)
    else if !e.amount.IntValue? then Raised(BadAmount)
    else if e.id.s in b.seen then
      if b.seen[e.id.s] != Value(e) then Raised(Conflict) else Ok(b)
    else
      var before := if e.account.s in b.balances then b.balances[e.account.s] else 0;
      Ok(Books(b.balances[e.account.s := before + e.amount.n], b.seen[e.id.s := Value(e)]))
  }

  function Run(b: Books, events: seq<RawEvent>): Result<Books, Reason>
    decreases |events|
  {
    if events == [] then Ok(b)
    else match Step(b, events[0])
      case Raised(reason) => Raised(reason)
      case Ok(b') => Run(b', events[1..])
  }

  /** Successive calls on one ledger; a call that raises leaves the books as they were. */
  function History(b: Books, batches: seq<seq<RawEvent>>): Books
    decreases |batches|
  {
    if batches == [] then b
    else match Run(b, batches[0])
      case Raised(_) => History(b, batches[1..])
      case Ok(b') => History(b', batches[1..])
  }

  const NEW_BOOKS := Books(map[], map[])

  class Ledger {
    var balances: map<string, int>
    var seen: map<string, Posting>

    function View(): Books
      reads this
    {
      Books(balances, seen)
    }

    ghost predicate Valid()
      reads this
    {
      Balanced(View())
    }

    constructor ()
      ensures Valid() && View() == NEW_BOOKS
    {
      balances, seen := map[], map[];
    }

    method Apply(events: seq<RawEvent>) returns (r: Result<map<string, int>, Reason>)
      requires Valid()
      modifies this
      ensures Valid()
      ensures r.Ok? <==> Admissible(old(seen), events)
      ensures r.Ok? <==> Consistent(old(seen), events)
      ensures r.Raised? ==> View() == old(View()) && Run(old(View()), events) == Raised(r.error)
      ensures r.Ok? ==> Run(old(View()), events) == Ok(View()) && r.value == balances
    {
      RunSucceedsIff(View(), events);
      ConsistentMeans(seen, events);
      RunBalanced(View(), events);
      var balances', seen' := balances, seen;
      for i := 0 to |events|
        invariant View() == old(View())
        invariant Run(Books(balances', seen'), events[i..]) == Run(old(View()), events)
      {
        var e := events[i];
        assert events[i..][1..] == events[i + 1..];
        if e.NotADict? { return Raised(BadEvent); }
        if !Name(e.id) || !Name(e.account) { return Raised(BadIdentity); }
        if !e.amount.IntValue? { return Raised(BadAmount); }
        var value := (e.account.s, e.amount.n);
        if e.id.s in seen' {
          if seen'[e.id.s] != value { return Raised(Conflict); }
          continue;
        }
        seen' := seen'[e.id.s := value];
        var balance := if e.account.s in balances' then balances'[e.account.s] else 0;
        balances' := balances'[e.account.s := balance + e.amount.n];
      }
      balances, seen := balances', seen';
      return Ok(balances);
    }
  }

  // ----- When a call succeeds -----

  /** Every event is well formed, and the events and the books give each id one account and amount. */
  ghost predicate Admissible(seen: map<string, Posting>, events: seq<RawEvent>) {
    && (forall e | e in events :: WellFormed(e))
    && (forall e | e in events && e.id.s in seen :: seen[e.id.s] == Value(e))
    && (forall e, f | e in events && f in events && e.id == f.id :: Value(e) == Value(f))
  }

  lemma {:induction false} RunSucceedsIff(b: Books, events: seq<RawEvent>)
    ensures Run(b, events).Ok? <==> Admissible(b.seen, events)
    decreases |events|
  {
    if events != [] {
      var e, rest := events[0], events[1..];
      assert events == [e] + rest;
      match Step(b, e) {
        case Raised(_) =>
          assert e in events;
        case Ok(b') =>
          RunSucceedsIff(b', rest);
          AdmissibleStep(b, e, rest);
      }
    }
  }

  lemma AdmissibleStep(b: Books, e: RawEvent, rest: seq<RawEvent>)
    requires Step(b, e).Ok?
    ensures Admissible(b.seen, [e] + rest) <==> Admissible(Step(b, e).value.seen, rest)
  {
    var events, seen' := [e] + rest, Step(b, e).value.seen;
    assert seen' == b.seen[e.id.s := Value(e)];
    assert forall f :: f in events <==> f == e || f in rest;
    if Admissible(seen', rest) {
      forall f | f in rest && f.id == e.id ensures Value(f) == Value(e) {
        assert f.id.s in seen';
      }
      forall f | f in rest && f.id.s in b.seen ensures b.seen[f.id.s] == Value(f) {
        assert f.id.s in seen';
      }
    }
  }

  // ----- The same in the fields of the events -----

  /** The event posts `n` to the account under the id: both are strings that are not empty, and `n` an integer. */
  ghost predicate Posts(e: RawEvent, id: string, account: string, n: int) {
    e == Dict(StrValue(id), StrValue(account), IntValue(n)) && id != "" && account != ""
  }

  /** Every event posts, and no id is used for two postings, in the events or in the ledger. */
  ghost predicate Consistent(seen: map<string, Posting>, events: seq<RawEvent>) {
    && (forall e | e in events :: exists id, account, n :: Posts(e, id, account, n))
    && (forall e, id, account, n | e in events && Posts(e, id, account, n) && id in seen :: seen[id] == (account, n))
    && (forall e, f, id, account, n, account', n' |
          e in events && f in events && Posts(e, id, account, n) && Posts(f, id, account', n') ::
          account == account' && n == n')
  }

  lemma PostsMeans(e: RawEvent)
    ensures WellFormed(e) <==> exists id, account, n :: Posts(e, id, account, n)
    ensures forall id, account, n ::
              Posts(e, id, account, n) <==> WellFormed(e) && e.id.s == id && Value(e) == (account, n)
  {
    if WellFormed(e) {
      assert Posts(e, e.id.s, e.account.s, e.amount.n);
    }
  }

  lemma ConsistentMeans(seen: map<string, Posting>, events: seq<RawEvent>)
    ensures Consistent(seen, events) <==> Admissible(seen, events)
  {
    forall e
      ensures WellFormed(e) <==> exists id, account, n :: Posts(e, id, account, n)
      ensures forall id, account, n ::
                Posts(e, id, account, n) <==> WellFormed(e) && e.id.s == id && Value(e) == (account, n)
    {
      PostsMeans(e);
    }
    if Consistent(seen, events) {
      forall e | e in events && e.id.s in seen ensures seen[e.id.s] == Value(e) {
        assert Posts(e, e.id.s, e.account.s, e.amount.n);
      }
      forall e, f | e in events && f in events && e.id == f.id ensures Value(e) == Value(f) {
        assert Posts(e, e.id.s, e.account.s, e.amount.n) && Posts(f, f.id.s, f.account.s, f.amount.n);
      }
    }
  }

  /** A successful batch adds exactly what its events post. */
  lemma RunPosts(b: Books, events: seq<RawEvent>, id: string, account: string, n: int)
    requires Run(b, events).Ok?
    ensures var seen := Run(b, events).value.seen;
      id in seen && seen[id] == (account, n)
      <==> (id in b.seen && b.seen[id] == (account, n)) || exists e :: e in events && Posts(e, id, account, n)
  {
    RunRecords(b, events);
    assert Recorded(b.seen, events, id, (account, n))
      <==> id in Run(b, events).value.seen && Run(b, events).value.seen[id] == (account, n);
    forall e ensures Posts(e, id, account, n) <==> WellFormed(e) && e.id.s == id && Value(e) == (account, n) {
      PostsMeans(e);
    }
  }

  /** Why an event is refused, after the events before it. */
  ghost predicate Offends(seen: map<string, Posting>, e: RawEvent, reason: Reason) {
    match reason
    case BadEvent => e == NotADict
    case BadIdentity => e.Dict? && forall id, account | id != "" && account != "" ::
                                     e.id != StrValue(id) || e.account != StrValue(account)
    case BadAmount => e.Dict? && (exists id, account :: Posts(e.(amount := IntValue(0)), id, account, 0))
                      && !e.amount.IntValue?
    case Conflict => exists id, account, n :: Posts(e, id, account, n) && id in seen && seen[id] != (account, n)
  }

  /** A refused batch has a first offending event, which gives the reason. */
  lemma {:induction false} RaisedMeans(b: Books, events: seq<RawEvent>)
    requires Run(b, events).Raised?
    ensures exists i :: 0 <= i < |events| && Run(b, events[..i]).Ok?
                        && Offends(Run(b, events[..i]).value.seen, events[i], Run(b, events).error)
    decreases |events|
  {
    var e, rest := events[0], events[1..];
    match Step(b, e) {
      case Raised(reason) =>
        StepOffends(b, e);
        assert events[..0] == [];
      case Ok(b') =>
        RaisedMeans(b', rest);
        var i :| 0 <= i < |rest| && Run(b', rest[..i]).Ok?
                 && Offends(Run(b', rest[..i]).value.seen, rest[i], Run(b', rest).error);
        assert events[..i + 1][0] == e && events[..i + 1][1..] == rest[..i] && events[i + 1] == rest[i];
    }
  }

  lemma StepOffends(b: Books, e: RawEvent)
    requires Step(b, e).Raised?
    ensures Offends(b.seen, e, Step(b, e).error)
  {
    if e.Dict? && Name(e.id) && Name(e.account) {
      assert Posts(e.(amount := IntValue(0)), e.id.s, e.account.s, 0);
      assert e.amount.IntValue? ==> Posts(e, e.id.s, e.account.s, e.amount.n);
    }
  }

  // ----- What the books hold after a call -----

  ghost predicate Recorded(seen: map<string, Posting>, events: seq<RawEvent>, id: string, v: Posting) {
    || (id in seen && seen[id] == v)
    || (exists e :: e in events && WellFormed(e) && e.id.s == id && Value(e) == v)
  }

  /** `seen` ends up as the old entries and the postings of the batch, and nothing else. */
  lemma {:induction false} RunRecords(b: Books, events: seq<RawEvent>)
    requires Run(b, events).Ok?
    ensures var seen := Run(b, events).value.seen;
      forall id, v :: (id in seen && seen[id] == v) <==> Recorded(b.seen, events, id, v)
    decreases |events|
  {
    if events != [] {
      var e, rest := events[0], events[1..];
      assert events == [e] + rest;
      var b' := Step(b, e).value;
      RunRecords(b', rest);
      forall id, v ensures Recorded(b'.seen, rest, id, v) <==> Recorded(b.seen, events, id, v) {
        assert id in b'.seen && b'.seen[id] == v
          <==> (id in b.seen && b.seen[id] == v) || (e.id.s == id && Value(e) == v);
        if Recorded(b.seen, events, id, v) && !(id in b.seen && b.seen[id] == v) {
          var f :| f in events && WellFormed(f) && f.id.s == id && Value(f) == v;
          assert f == e || f in rest;
        }
      }
    }
  }

  function AmountFor(account: string): Posting -> real {
    (p: Posting) => if p.0 == account then p.1 as real else 0.0
  }

  /** The accounts with a balance are those of the seen ids; each balance is the sum of their amounts. */
  ghost predicate Balanced(b: Books) {
    && (forall a :: a in b.balances <==> exists id :: id in b.seen && b.seen[id].0 == a)
    && (forall a | a in b.balances :: b.balances[a] as real == Total(b.seen, AmountFor(a)))
  }

  lemma {:induction false} NoPostings(seen: map<string, Posting>, a: string)
    requires forall id | id in seen :: seen[id].0 != a
    ensures Total(seen, AmountFor(a)) == 0.0
    decreases |seen|
  {
    if seen != map[] {
      var k :| k in seen;
      TotalSplit(seen, k, AmountFor(a));
      NoPostings(seen - {k}, a);
    }
  }

  lemma StepBalanced(b: Books, e: RawEvent)
    requires Balanced(b) && Step(b, e).Ok?
    ensures Balanced(Step(b, e).value)
  {
    var b' := Step(b, e).value;
    if e.id.s !in b.seen {
      var id, p := e.id.s, Value(e);
      forall a ensures a in b'.balances <==> exists k :: k in b'.seen && b'.seen[k].0 == a {
        if a == p.0 {
          assert id in b'.seen && b'.seen[id].0 == a;
        } else if a in b.balances {
          var k :| k in b.seen && b.seen[k].0 == a;
          assert k in b'.seen && b'.seen[k].0 == a;
        }
      }
      forall a | a in b'.balances ensures b'.balances[a] as real == Total(b'.seen, AmountFor(a)) {
        TotalInsert(b.seen, id, p, AmountFor(a));
        if a !in b.balances {
          NoPostings(b.seen, a);
        }
      }
    }
  }

  lemma {:induction false} RunBalanced(b: Books, events: seq<RawEvent>)
    requires Balanced(b)
    ensures Run(b, events).Ok? ==> Balanced(Run(b, events).value)
    decreases |events|
  {
    if events != [] && Step(b, events[0]).Ok? {
      StepBalanced(b, events[0]);
      RunBalanced(Step(b, events[0]).value, events[1..]);
    }
  }

  lemma BooksFollowSeen(b: Books, c: Books)
    requires Balanced(b) && Balanced(c) && b.seen == c.seen
    ensures b == c
  {
    assert b.balances.Keys == c.balances.Keys;
    forall a | a in b.balances ensures b.balances[a] == c.balances[a] {
      assert b.balances[a] as real == c.balances[a] as real;
    }
  }

  // ----- Main results: order, repetition and batching do not matter -----

  /** Reordering or repeating the events of a batch changes neither its success nor the books. */
  lemma Confluence(b: Books, xs: seq<RawEvent>, ys: seq<RawEvent>)
    requires Balanced(b)
    requires forall e :: e in xs <==> e in ys
    ensures Run(b, xs).Ok? <==> Run(b, ys).Ok?
    ensures Run(b, xs).Ok? ==> Run(b, xs) == Run(b, ys)
  {
    RunSucceedsIff(b, xs);
    RunSucceedsIff(b, ys);
    if Run(b, xs).Ok? {
      RunBalanced(b, xs);
      RunBalanced(b, ys);
      RunRecords(b, xs);
      RunRecords(b, ys);
      var s, t := Run(b, xs).value.seen, Run(b, ys).value.seen;
      forall id, v ensures Recorded(b.seen, xs, id, v) <==> Recorded(b.seen, ys, id, v) {}
      assert forall id | id in s :: id in t && s[id] == t[id] by {
        forall id | id in s ensures id in t && s[id] == t[id] {
          assert Recorded(b.seen, ys, id, s[id]);
        }
      }
      assert forall id | id in t :: id in s by {
        forall id | id in t ensures id in s {
          assert Recorded(b.seen, xs, id, t[id]);
        }
      }
      assert s == t;
      BooksFollowSeen(Run(b, xs).value, Run(b, ys).value);
    }
  }

  lemma {:induction false} RunConcat(b: Books, xs: seq<RawEvent>, ys: seq<RawEvent>)
    ensures Run(b, xs + ys) == match Run(b, xs) case Raised(r) => Raised(r) case Ok(c) => Run(c, ys)
    decreases |xs|
  {
    if xs == [] {
      assert xs + ys == ys;
    } else {
      assert (xs + ys)[1..] == xs[1..] + ys;
      match Step(b, xs[0]) {
        case Raised(_) =>
        case Ok(b') => RunConcat(b', xs[1..], ys);
      }
    }
  }

  function Flatten(batches: seq<seq<RawEvent>>): seq<RawEvent> {
    if batches == [] then [] else batches[0] + Flatten(batches[1..])
  }

  ghost predicate AllSucceed(b: Books, batches: seq<seq<RawEvent>>)
    decreases |batches|
  {
    batches == [] || (Run(b, batches[0]).Ok? && AllSucceed(Run(b, batches[0]).value, batches[1..]))
  }

  lemma {:induction false} SplitRun(b: Books, batches: seq<seq<RawEvent>>)
    requires Run(b, Flatten(batches)).Ok?
    ensures AllSucceed(b, batches)
    ensures History(b, batches) == Run(b, Flatten(batches)).value
    decreases |batches|
  {
    if batches != [] {
      RunConcat(b, batches[0], Flatten(batches[1..]));
      SplitRun(Run(b, batches[0]).value, batches[1..]);
    }
  }

  /**
    When a batch succeeds, any successive batches made of the same events, in any order and with any
    repetitions, all succeed and end in the same books.
   */
  lemma ReplaySafe(b: Books, events: seq<RawEvent>, batches: seq<seq<RawEvent>>)
    requires Balanced(b) && Run(b, events).Ok?
    requires forall e :: e in events <==> e in Flatten(batches)
    ensures AllSucceed(b, batches)
    ensures History(b, batches) == Run(b, events).value
  {
    Confluence(b, events, Flatten(batches));
    SplitRun(b, batches);
  }

  /** Every run of calls, failing ones included, keeps the books balanced and only adds to `seen`. */
  lemma {:induction false} HistoryBalanced(b: Books, batches: seq<seq<RawEvent>>)
    requires Balanced(b)
    ensures Balanced(History(b, batches))
    ensures forall id | id in b.seen :: id in History(b, batches).seen && History(b, batches).seen[id] == b.seen[id]
    decreases |batches|
  {
    if batches != [] {
      match Run(b, batches[0]) {
        case Raised(_) => HistoryBalanced(b, batches[1..]);
        case Ok(b') =>
          RunBalanced(b, batches[0]);
          RunRecords(b, batches[0]);
          forall id | id in b.seen ensures id in b'.seen && b'.seen[id] == b.seen[id] {
            assert Recorded(b.seen, batches[0], id, b.seen[id]);
          }
          HistoryBalanced(b', batches[1..]);
      }
    }
  }
}
