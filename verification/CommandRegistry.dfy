/**
  Command auto-discovery: `detect_duplicate_commands` and `register_feature_commands`. An app is the
  list of its effective top-level names, repeats included, and the set object stamped on it.
*/
module CommandRegistry {
  import opened Wrappers
  import opened Sequences

  /** What importing a feature and calling its `register` does; a throwing one may add names first. */
  datatype Behaviour = ImportFails | NoRegister | Throws(added: seq<string>) | Registers(added: seq<string>)

  /** A discovered feature; what it does may depend on the names registered so far. */
  datatype Feature = Feature(name: string, behave: seq<string> -> Behaviour)

  datatype DuplicateCommandError = DuplicateCommandError(feature: string, collisions: seq<string>)

  // ----- Counting names -----

  /** The keys of `Counter(names)`. */
  function Dedupe(names: seq<string>): seq<string> {
    if names == [] then []
    else
      var init, last := Dedupe(names[..|names| - 1]), names[|names| - 1];
      if last in init then init else init + [last]
  }

  lemma {:induction false} DedupeKeys(names: seq<string>)
    ensures Distinct(Dedupe(names))
    ensures forall n :: n in Dedupe(names) <==> n in names
  {
    if names != [] {
      DedupeKeys(names[..|names| - 1]);
      assert names == names[..|names| - 1] + [names[|names| - 1]];
    }
  }

  lemma {:induction false} FilterDistinct(names: seq<string>, p: string -> bool)
    requires Distinct(names)
    ensures Distinct(Filter(names, p))
  {
    if names != [] {
      FilterDistinct(names[1..], p);
      FilterMembers(names[1..], p);
    }
  }

  /** `sorted(name for name in Counter(names) if p(name))`. */
  function SortedKeys(names: seq<string>, p: string -> bool): seq<string> {
    Sort(Filter(Dedupe(names), p), StringLe)
  }

  lemma SortedKeysMeaning(names: seq<string>, p: string -> bool)
    ensures SortedBy(SortedKeys(names, p), StringLe) && Distinct(SortedKeys(names, p))
    ensures forall n :: n in SortedKeys(names, p) <==> n in names && p(n)
  {
    StringOrder();
    DedupeKeys(names);
    FilterDistinct(Dedupe(names), p);
    FilterMembers(Dedupe(names), p);
    SortIsSortedPermutation(Filter(Dedupe(names), p), StringLe);
    DistinctMultiset(Filter(Dedupe(names), p), SortedKeys(names, p));
  }

  function Repeated(names: seq<string>): string -> bool {
    n => multiset(names)[n] > 1
  }

  function DetectDuplicateCommands(names: seq<string>): seq<string> {
    SortedKeys(names, Repeated(names))
  }

  /** The result is empty exactly when every name is unambiguous. */
  lemma NoDuplicatesMeansDistinct(names: seq<string>)
    ensures DetectDuplicateCommands(names) == [] <==> Distinct(names)
  {
    SortedKeysMeaning(names, Repeated(names));
    var dup := DetectDuplicateCommands(names);
    assert dup != [] ==> dup[0] in dup;
    if Distinct(names) {
      DistinctCounts(names);
      assert forall n :: !Repeated(names)(n);
    } else {
      if forall n :: multiset(names)[n] <= 1 {
        CountsDistinct(names);
      }
      var n :| multiset(names)[n] > 1;
      assert n in names && Repeated(names)(n) && n in dup;
    }
  }

  function AmongNames(before: seq<string>): string -> bool {
    n => n in before
  }

  /** The names a feature added that the app already had. */
  function Collisions(before: seq<string>, added: seq<string>): seq<string> {
    SortedKeys(added, AmongNames(before))
  }

  // ----- One call of the registry, feature by feature -----

  datatype Outcome = Outcome(
    names: seq<string>, recorded: seq<string>, ran: seq<string>, error: Option<DuplicateCommandError>)

  datatype Turn =
    | Passed
    | Threw(names: seq<string>)
    | Registered(names: seq<string>)
    | Collided(names: seq<string>, error: DuplicateCommandError)

  /** What one turn of the loop comes to. */
  function TurnOf(names: seq<string>, already: set<string>, f: Feature, strict: bool): Turn {
    if f.name in already then Passed
    else match f.behave(names)
      case ImportFails => Passed
      case NoRegister => Passed
      case Throws(added) => Threw(names + added)
      case Registers(added) =>
        var collisions := Collisions(names, added);
        if collisions != [] && strict then Collided(names + added, DuplicateCommandError(f.name, collisions))
        else Registered(names + added)
  }

  function Process(names: seq<string>, already: set<string>, features: seq<Feature>, strict: bool): Outcome
    decreases |features|
  {
    if features == [] then Outcome(names, [], [], None)
    else
      var f, rest := features[0], features[1..];
      match TurnOf(names, already, f, strict)
      case Passed => Process(names, already, rest, strict)
      case Threw(names') => Ran(f.name, Process(names', already, rest, strict))
      case Registered(names') => Ran(f.name, Recorded(f.name, Process(names', already + {f.name}, rest, strict)))
      case Collided(names', error) => Outcome(names', [], [f.name], Some(error))
  }

  function Ran(name: string, o: Outcome): Outcome {
    o.(ran := [name] + o.ran)
  }

  function Recorded(name: string, o: Outcome): Outcome {
    o.(recorded := [name] + o.recorded)
  }

  /** The set object that `_GUARD_ATTR` refers to. */
  class GuardSet {
    var items: set<string>

    constructor ()
      ensures items == {}
    {
      items := {};
    }
  }

  class App {
    var names: seq<string>
    var guard: GuardSet?

    constructor ()
      ensures names == [] && guard == null
    {
      names, guard := [], null;
    }

    /** The features recorded on the app; none when the attribute is missing. */
    function Guarded(): set<string>
      reads this, guard
    {
      if guard == null then {} else guard.items
    }

    /**
      The guard set is updated in place: a call that raises leaves the features it recorded before in
      an existing set, but a set it created itself is lost.
     */
    method RegisterFeatureCommands(features: seq<Feature>, strict: bool)
      returns (r: Result<seq<string>, DuplicateCommandError>, ghost ran: seq<string>, ghost o: Outcome)
      modifies this, guard
      ensures o == Process(old(names), old(Guarded()), features, strict)
      ensures names == o.names && ran == o.ran
      ensures r == if o.error.None? then Ok(o.recorded) else Raised(o.error.value)
      ensures Guarded() == if r.Raised? && old(guard) == null then {} else old(Guarded()) + Members(o.recorded)
      ensures r.Raised? || old(guard) != null ==> guard == old(guard)
      ensures r.Ok? ==> guard != null && (old(guard) == null ==> fresh(guard))
    {
      var already: GuardSet;
      if guard == null {
        already := new GuardSet();
      } else {
        already := guard;
      }
      o := Process(names, already.items, features, strict);
      ghost var items := already.items;
      var registeredNow: seq<string> := [];
      ran := [];
      for i := 0 to |features|
        invariant guard == old(guard)
        invariant already.items == items + Members(registeredNow)
        invariant Prefixed(registeredNow, ran, Process(names, already.items, features[i..], strict)) == o
      {
        var f, before := features[i], names;
        ghost var was, rest := already.items, features[i + 1..];
        ghost var turn := TurnOf(before, was, f, strict);
        assert features[i..][0] == f && features[i..][1..] == rest;
        if f.name in already.items { continue; }
        var b := f.behave(before);
        if b.ImportFails? || b.NoRegister? { continue; }
        names := before + b.added;
        ghost var ranBefore := ran;
        ran := ran + [f.name];
        if b.Throws? {
          assert turn == Threw(names);
          PrefixRan(registeredNow, ranBefore, f.name, Process(names, was, rest, strict));
          continue;
        }
        var collisions := Collisions(before, b.added);
        if collisions != [] && strict {
          assert turn == Collided(names, DuplicateCommandError(f.name, collisions));
          assert o == Outcome(names, registeredNow, ran, Some(DuplicateCommandError(f.name, collisions)));
          r := Raised(DuplicateCommandError(f.name, collisions));
          return;
        }
        assert turn == Registered(names);
        already.items := already.items + {f.name};
        ghost var later := Process(names, already.items, rest, strict);
        PrefixRan(registeredNow, ranBefore, f.name, Recorded(f.name, later));
        PrefixRecorded(registeredNow, ran, f.name, later);
        assert Members(registeredNow + [f.name]) == Members(registeredNow) + {f.name};
        registeredNow := registeredNow + [f.name];
      }
      assert features[|features|..] == [];
      assert o == Outcome(names, registeredNow, ran, None);
      guard := already;
      r := Ok(registeredNow);
    }
  }

  function Members(names: seq<string>): set<string> {
    set n | n in names
  }

  function Prefixed(recorded: seq<string>, ran: seq<string>, o: Outcome): Outcome {
    Outcome(o.names, recorded + o.recorded, ran + o.ran, o.error)
  }

  lemma PrefixRan(recorded: seq<string>, ran: seq<string>, name: string, o: Outcome)
    ensures Prefixed(recorded, ran, Ran(name, o)) == Prefixed(recorded, ran + [name], o)
  {
  }

  lemma PrefixRecorded(recorded: seq<string>, ran: seq<string>, name: string, o: Outcome)
    ensures Prefixed(recorded, ran, Recorded(name, o)) == Prefixed(recorded + [name], ran, o)
  {
  }

  // ----- Main results -----

  lemma CollisionsMeanOverlap(names: seq<string>, added: seq<string>)
    requires Distinct(names) && Distinct(added)
    ensures Collisions(names, added) == [] <==> Distinct(names + added)
  {
    SortedKeysMeaning(added, AmongNames(names));
    var c := Collisions(names, added);
    if c == [] {
      forall n | n in names ensures n !in added {
        assert n in c <==> n in added && AmongNames(names)(n);
      }
      DistinctConcat(names, added);
    } else {
      assert c[0] in c;
      var i :| 0 <= i < |names| && names[i] == c[0];
      var j :| 0 <= j < |added| && added[j] == c[0];
      assert (names + added)[i] == (names + added)[|names| + j];
    }
  }

  /**
    No feature that runs registers a name twice itself, and none that raises leaves a repeated name behind.
    A turn that collides ends the call, and what follows it does not matter.
   */
  ghost predicate CleanTurns(names: seq<string>, already: set<string>, features: seq<Feature>)
    decreases |features|
  {
    if features == [] then true
    else
      var f, rest := features[0], features[1..];
      match TurnOf(names, already, f, true)
      case Passed => CleanTurns(names, already, rest)
      case Threw(names') => Distinct(names') && CleanTurns(names', already, rest)
      case Registered(names') =>
        Distinct(f.behave(names).added) && CleanTurns(names', already + {f.name}, rest)
      case Collided(_, _) => true
  }

  /** A call only appends names. */
  lemma {:induction false} NamesGrow(names: seq<string>, already: set<string>, features: seq<Feature>, strict: bool)
    ensures names <= Process(names, already, features, strict).names
    decreases |features|
  {
    if features != [] {
      var f, rest := features[0], features[1..];
      match TurnOf(names, already, f, strict) {
        case Passed => NamesGrow(names, already, rest, strict);
        case Threw(names') => NamesGrow(names', already, rest, strict);
        case Registered(names') => NamesGrow(names', already + {f.name}, rest, strict);
        case Collided(_, _) =>
      }
    }
  }

  lemma RepeatsStay(names: seq<string>, more: seq<string>)
    requires names <= more && !Distinct(names)
    ensures !Distinct(more)
  {
    var i, j :| 0 <= i < j < |names| && names[i] == names[j];
    assert more[i] == more[j];
  }

  lemma CollisionRepeats(names: seq<string>, added: seq<string>)
    requires Collisions(names, added) != []
    ensures !Distinct(names + added)
  {
    SortedKeysMeaning(added, AmongNames(names));
    var c := Collisions(names, added)[0];
    assert c in Collisions(names, added);
    var i :| 0 <= i < |names| && names[i] == c;
    var j :| 0 <= j < |added| && added[j] == c;
    assert (names + added)[i] == (names + added)[|names| + j];
  }

  /** A turn that registers leaves the names distinct exactly when its own are. */
  lemma RegisteredDistinct(names: seq<string>, added: seq<string>)
    requires Distinct(names) && Collisions(names, added) == []
    ensures Distinct(names + added) <==> Distinct(added)
  {
    if Distinct(added) {
      CollisionsMeanOverlap(names, added);
    } else {
      var i, j :| 0 <= i < j < |added| && added[i] == added[j];
      assert (names + added)[|names| + i] == (names + added)[|names| + j];
    }
  }

  /** A strict call that raises leaves a repeated name; one that returns does so unless every turn was clean. */
  lemma {:induction false} FinalNames(names: seq<string>, already: set<string>, features: seq<Feature>)
    requires Distinct(names)
    ensures var o := Process(names, already, features, true);
      Distinct(o.names) <==> o.error.None? && CleanTurns(names, already, features)
    decreases |features|, 0
  {
    if features != [] {
      var f, rest := features[0], features[1..];
      match TurnOf(names, already, f, true) {
        case Passed => FinalNames(names, already, rest);
        case Threw(names') => LaterNames(names', already, rest);
        case Registered(names') =>
          RegisteredDistinct(names, f.behave(names).added);
          LaterNames(names', already + {f.name}, rest);
        case Collided(_, _) => CollisionRepeats(names, f.behave(names).added);
      }
    }
  }

  lemma {:induction false} LaterNames(names: seq<string>, already: set<string>, features: seq<Feature>)
    ensures var o := Process(names, already, features, true);
      Distinct(o.names) <==> Distinct(names) && o.error.None? && CleanTurns(names, already, features)
    decreases |features|, 1
  {
    if Distinct(names) {
      FinalNames(names, already, features);
    } else {
      NamesGrow(names, already, features, true);
      RepeatsStay(names, Process(names, already, features, true).names);
    }
  }

  /**
    The promise of a strict call, that it returns normally if and only if no name is then duplicated, is
    kept exactly by the calls that raise and those whose every turn was clean.
   */
  lemma StrictCallIsSoundExactlyWhen(names: seq<string>, already: set<string>, features: seq<Feature>)
    requires Distinct(names)
    ensures var o := Process(names, already, features, true);
      (o.error.None? <==> DetectDuplicateCommands(o.names) == [])
      <==> o.error.Some? || CleanTurns(names, already, features)
  {
    NoDuplicatesMeansDistinct(Process(names, already, features, true).names);
    FinalNames(names, already, features);
  }

  /** Registration never repeats a name within one feature, and nothing is left behind by a raise. */
  ghost predicate Tame(features: seq<Feature>) {
    forall f, names: seq<string> | f in features ::
      match f.behave(names)
      case Registers(added) => Distinct(added)
      case Throws(added) => added == []
      case _ => true
  }

  lemma {:induction false} TameMeansClean(names: seq<string>, already: set<string>, features: seq<Feature>)
    requires Distinct(names) && Tame(features)
    ensures CleanTurns(names, already, features)
    decreases |features|
  {
    if features != [] {
      var f, rest := features[0], features[1..];
      assert f in features;
      match TurnOf(names, already, f, true) {
        case Passed => TameMeansClean(names, already, rest);
        case Threw(names') =>
          assert names' == names;
          TameMeansClean(names', already, rest);
        case Registered(names') =>
          RegisteredDistinct(names, f.behave(names).added);
          TameMeansClean(names', already + {f.name}, rest);
        case Collided(_, _) =>
      }
    }
  }

  /** Whatever the names and the guard, a strict call over tame features keeps the promise. */
  lemma StrictCallIsSound(names: seq<string>, already: set<string>, features: seq<Feature>)
    requires Distinct(names) && Tame(features)
    ensures Process(names, already, features, true).error.None?
            <==> DetectDuplicateCommands(Process(names, already, features, true).names) == []
  {
    TameMeansClean(names, already, features);
    StrictCallIsSoundExactlyWhen(names, already, features);
  }

  lemma {:induction false} FilterNone(names: seq<string>, p: string -> bool)
    requires forall n | n in names :: !p(n)
    ensures Filter(names, p) == []
  {
    if names != [] {
      FilterNone(names[1..], p);
    }
  }

  /** A feature that repeats a name within itself slips through a strict call. */
  lemma RepeatWithinFeatureIsMissed(f: Feature, name: string)
    requires f.behave([]) == Registers([name, name])
    ensures Process([], {}, [f], true).error.None?
    ensures DetectDuplicateCommands(Process([], {}, [f], true).names) != []
  {
    FilterNone(Dedupe([name, name]), AmongNames([]));
    assert [] + [name, name] == [name, name];
    assert Process([], {}, [f], true).names == [name, name];
    NoDuplicatesMeansDistinct([name, name]);
    assert [name, name][0] == [name, name][1];
  }

  /** So does a feature that fails after it has added a name the app already had. */
  lemma ThrowAfterAddingIsMissed(f: Feature, name: string)
    requires f.behave([name]) == Throws([name])
    ensures Process([name], {}, [f], true).error.None?
    ensures DetectDuplicateCommands(Process([name], {}, [f], true).names) != []
  {
    assert [name] + [name] == [name, name];
    assert Process([name], {}, [f], true).names == [name, name];
    NoDuplicatesMeansDistinct([name, name]);
    assert [name, name][0] == [name, name][1];
  }

  // ----- One feature more -----

  /** The names of `added` that were there before, in order and once each. */
  ghost predicate Clashes(names: seq<string>, added: seq<string>, clashes: seq<string>) {
    && (forall n :: n in clashes <==> n in added && n in names)
    && forall i, j | 0 <= i < j < |clashes| :: StringLe(clashes[i], clashes[j]) && clashes[i] != clashes[j]
  }

  /** What one more feature makes of the outcome `o` of the features before it. */
  ghost predicate Extends(o: Outcome, p: Outcome, already: set<string>, f: Feature, strict: bool) {
    if o.error.Some? || f.name in already || f.name in o.recorded then p == o
    else match f.behave(o.names)
      case ImportFails => p == o
      case NoRegister => p == o
      case Throws(added) => p == Outcome(o.names + added, o.recorded, o.ran + [f.name], None)
      case Registers(added) =>
        if strict && exists n :: n in added && n in o.names then
          exists clashes :: Clashes(o.names, added, clashes)
            && p == Outcome(o.names + added, o.recorded, o.ran + [f.name], Some(DuplicateCommandError(f.name, clashes)))
        else p == Outcome(o.names + added, o.recorded + [f.name], o.ran + [f.name], None)
  }

  /** A call over one more feature, strict or not: what that feature adds, what is recorded, and whether it raises. */
  lemma {:induction false} OneFeatureMore(
      names: seq<string>, already: set<string>, features: seq<Feature>, f: Feature, strict: bool)
    ensures Extends(Process(names, already, features, strict), Process(names, already, features + [f], strict),
                    already, f, strict)
    decreases |features|
  {
    var more := features + [f];
    if features == [] {
      assert more == [f] && [f][1..] == [];
      OnlyFeature(names, already, f, strict);
    } else {
      var g, rest := features[0], features[1..];
      assert more[0] == g && more[1..] == rest + [f];
      match TurnOf(names, already, g, strict) {
        case Passed => OneFeatureMore(names, already, rest, f, strict);
        case Threw(names') => OneFeatureMore(names', already, rest, f, strict);
        case Registered(names') => OneFeatureMore(names', already + {g.name}, rest, f, strict);
        case Collided(_, _) =>
      }
    }
  }

  lemma OnlyFeature(names: seq<string>, already: set<string>, f: Feature, strict: bool)
    ensures Extends(Outcome(names, [], [], None), Process(names, already, [f], strict), already, f, strict)
  {
    assert [f][1..] == [];
    match f.behave(names) {
      case Registers(added) => CollisionsClash(names, added);
      case _ =>
    }
  }

  lemma CollisionsClash(names: seq<string>, added: seq<string>)
    ensures Clashes(names, added, Collisions(names, added))
    ensures Collisions(names, added) != [] <==> exists n :: n in added && n in names
  {
    SortedKeysMeaning(added, AmongNames(names));
    var c := Collisions(names, added);
    if c != [] {
      assert c[0] in c;
    }
    forall i, j | 0 <= i < j < |c| ensures StringLe(c[i], c[j]) && c[i] != c[j] {}
    forall n | n in added && n in names ensures n in c {}
  }

  /** A call that is not strict never raises. */
  lemma {:induction false} LenientNeverRaises(names: seq<string>, already: set<string>, features: seq<Feature>)
    ensures Process(names, already, features, false).error == None
    ensures Process(names, already, [], false) == Outcome(names, [], [], None)
    decreases |features|
  {
    if features != [] {
      var f, rest := features[0], features[1..];
      match TurnOf(names, already, f, false) {
        case Passed => LenientNeverRaises(names, already, rest);
        case Threw(names') => LenientNeverRaises(names', already, rest);
        case Registered(names') => LenientNeverRaises(names', already + {f.name}, rest);
      }
    }
  }

  /** Every recorded feature was run, and none that the guard already held is run or recorded. */
  lemma {:induction false} GuardIsRespected(
      names: seq<string>, already: set<string>, features: seq<Feature>, strict: bool)
    ensures var o := Process(names, already, features, strict);
      && (forall n | n in o.ran :: n !in already)
      && (forall n | n in o.recorded :: n in o.ran)
      && Distinct(o.recorded)
    decreases |features|
  {
    if features != [] {
      var f, rest := features[0], features[1..];
      match TurnOf(names, already, f, strict) {
        case Passed => GuardIsRespected(names, already, rest, strict);
        case Threw(names') => GuardIsRespected(names', already, rest, strict);
        case Registered(names') => GuardIsRespected(names', already + {f.name}, rest, strict);
        case Collided(_, _) =>
      }
    }
  }

  /** The returned list keeps the sorted discovery order. */
  lemma {:induction false} RecordedInOrder(
      names: seq<string>, already: set<string>, features: seq<Feature>, strict: bool)
    requires forall i, j | 0 <= i < j < |features| :: StringLe(features[i].name, features[j].name)
    ensures SortedBy(Process(names, already, features, strict).recorded, StringLe)
    ensures forall n | n in Process(names, already, features, strict).recorded ::
              exists f :: f in features && f.name == n
    decreases |features|
  {
    if features != [] {
      var f, rest := features[0], features[1..];
      assert features == [f] + rest;
      match TurnOf(names, already, f, strict) {
        case Passed => RecordedInOrder(names, already, rest, strict);
        case Threw(names') => RecordedInOrder(names', already, rest, strict);
        case Registered(names') =>
          RecordedInOrder(names', already + {f.name}, rest, strict);
          forall n | n in Process(names', already + {f.name}, rest, strict).recorded ensures StringLe(f.name, n) {
            var g :| g in rest && g.name == n;
          }
        case Collided(_, _) =>
      }
    }
  }

  /** A second call runs no feature that the first recorded, whatever the features now are and do. */
  lemma SecondCallRunsNothingRecorded(
      names: seq<string>, already: set<string>, features: seq<Feature>, strict: bool,
      again: seq<Feature>, strict': bool)
    ensures var first := Process(names, already, features, strict);
      var second := Process(first.names, already + Members(first.recorded), again, strict');
      forall n | n in already || n in first.recorded :: n !in second.ran && n !in second.recorded
  {
    var first := Process(names, already, features, strict);
    GuardIsRespected(first.names, already + Members(first.recorded), again, strict');
  }
}
