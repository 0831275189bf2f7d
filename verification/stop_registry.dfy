/**
 The standing-registration registry shared by ubus_watch and ubus_listen (internal/agent/stopregistry.go):
 a map from key to stop channel under a lock, goroutines that clean up after themselves late, and
 handlers that close a stop channel outside the lock.
 */
module StopRegistry {
  import opened Wrappers
  import opened Runs

  // ---------------------------------------------------------------- the lock-guarded operations

  function Unless(m: map<string, nat>, key: string): map<string, nat>
  {
    map k | k in m && k != key :: m[k]
  }

  /** cleanupOwnEntry: remove the key only if it still maps to this very channel. */
  function CleanedUp(m: map<string, nat>, key: string, stop: nat): map<string, nat>
  {
    if key in m && m[key] == stop then Unless(m, key) else m
  }

  class Registry {
    var entries: map<string, nat>
    /** Channels are numbered in the order they are made. */
    var made: nat

    constructor ()
      ensures entries == map[] && made == 0
    {
      entries, made := map[], 0;
    }

    method StartOrNoop(key: string) returns (stop: nat, alreadyRunning: bool)
      modifies this
      ensures alreadyRunning <==> key in old(entries)
      ensures alreadyRunning ==> stop == old(entries)[key] && entries == old(entries) && made == old(made)
      ensures !alreadyRunning ==> stop == old(made) && entries == old(entries)[key := stop] && made == old(made) + 1
    {
      if key in entries {
        return entries[key], true;
      }
      stop := made;
      made := made + 1;
      entries := entries[key := stop];
      return stop, false;
    }

    method StopKey(key: string) returns (stop: Option<nat>)
      modifies this`entries
      ensures stop == if key in old(entries) then Some(old(entries)[key]) else None
      ensures entries == Unless(old(entries), key)
    {
      if key in entries {
        stop := Some(entries[key]);
        entries := map k | k in entries && k != key :: entries[k];
      } else {
        stop := None;
        assert Unless(entries, key) == entries;
      }
    }

    method CleanupOwnEntry(key: string, stop: nat)
      modifies this`entries
      ensures entries == CleanedUp(old(entries), key, stop)
    {
      if key in entries && entries[key] == stop {
        entries := map k | k in entries && k != key :: entries[k];
      }
    }
  }

  // ---------------------------------------------------------------- all interleavings

  /** The goroutine of one registration; its stop channel has the goroutine's number. */
  datatype Life = Running | Exited | CleanedUpAfter

  datatype Goroutine = Goroutine(key: string, life: Life)

  datatype State = State(
    entries: map<string, nat>,
    routines: seq<Goroutine>,
    taken: set<nat>,     // stop channels a stop handler has removed from the map
    closed: set<nat>,    // stop channels closed so far
    doubleClose: bool)

  datatype Action =
    | Begin(key: string)      // startOrNoop and, for a new key, the go statement
    | TakeStop(key: string)   // stopKey under the lock
    | CloseStop(stop: nat)    // close(stop) outside it
    | Exit(stop: nat)         // stop seen, session over, or any other return
    | CleanUp(stop: nat)      // the deferred cleanupOwnEntry, any time later

  const INIT := State(map[], [], {}, {}, false)

  ghost predicate Step(s: State, a: Action, r: State)
  {
    match a
    case Begin(key) =>
      r == if key in s.entries then s
           else s.(entries := s.entries[key := |s.routines|], routines := s.routines + [Goroutine(key, Running)])
    case TakeStop(key) =>
      r == if key in s.entries then s.(entries := Unless(s.entries, key), taken := s.taken + {s.entries[key]}) else s
    case CloseStop(stop) =>
      && stop in s.taken
      && r == s.(taken := s.taken - {stop}, closed := s.closed + {stop}, doubleClose := s.doubleClose || stop in s.closed)
    case Exit(stop) =>
      && stop < |s.routines| && s.routines[stop].life == Running
      && r == s.(routines := s.routines[stop := s.routines[stop].(life := Exited)])
    case CleanUp(stop) =>
      && stop < |s.routines| && s.routines[stop].life == Exited
      && r == s.(entries := CleanedUp(s.entries, s.routines[stop].key, stop),
                 routines := s.routines[stop := s.routines[stop].(life := CleanedUpAfter)])
  }

  /** Neither asked to stop nor done cleaning up. */
  predicate Standing(s: State, c: nat)
  {
    c < |s.routines| && s.routines[c].life != CleanedUpAfter && c !in s.taken && c !in s.closed
  }

  /** The map is exactly the standing goroutines, and each stop channel is taken and closed at most once. */
  ghost predicate Inv(s: State)
  {
    && (forall k :: k in s.entries ==> Standing(s, s.entries[k]) && s.routines[s.entries[k]].key == k)
    && (forall c: nat :: Standing(s, c) ==> s.routines[c].key in s.entries && s.entries[s.routines[c].key] == c)
    && (forall c :: c in s.taken || c in s.closed ==> c < |s.routines|)
    && s.taken !! s.closed
    && !s.doubleClose
  }

  lemma StepKeepsInv(s: State, a: Action, r: State)
    requires Inv(s) && Step(s, a, r)
    ensures Inv(r)
  {
    match a {
      case Begin(key) =>
        if key !in s.entries {
          assert forall c: nat :: Standing(r, c) <==> Standing(s, c) || c == |s.routines|;
        }
      case TakeStop(key) =>
        if key in s.entries {
          assert forall c: nat :: Standing(r, c) <==> Standing(s, c) && c != s.entries[key];
        }
      case CloseStop(stop) =>
        assert forall c: nat :: Standing(r, c) <==> Standing(s, c);
      case Exit(stop) =>
        assert forall c: nat :: Standing(r, c) <==> Standing(s, c);
      case CleanUp(stop) =>
        assert forall c: nat :: Standing(r, c) <==> Standing(s, c) && c != stop;
    }
  }

  ghost predicate IsRun(trace: seq<State>, actions: seq<Action>)
  {
    Chain(Step, trace, actions) && trace[0] == INIT
  }

  lemma {:induction false} RunsKeepInv(trace: seq<State>, actions: seq<Action>, n: nat)
    requires IsRun(trace, actions) && n < |trace|
    ensures Inv(trace[n])
  {
    if n > 0 {
      RunsKeepInv(trace, actions, n - 1);
      assert Step(trace[n - 1], actions[n - 1], trace[n - 1 + 1]);
      StepKeepsInv(trace[n - 1], actions[n - 1], trace[n]);
    }
  }

  // ---------------------------------------------------------------- promises

  /**
   In every interleaving: a goroutine that was not asked to stop and has not cleaned up is the one
   registered under its key, and the only such goroutine of that key.
   */
  lemma OneStandingPerKey(trace: seq<State>, actions: seq<Action>, n: nat, c: nat, d: nat)
    requires IsRun(trace, actions) && n < |trace|
    requires Standing(trace[n], c) && Standing(trace[n], d) && trace[n].routines[c].key == trace[n].routines[d].key
    ensures c == d && trace[n].routines[c].key in trace[n].entries && trace[n].entries[trace[n].routines[c].key] == c
  {
    RunsKeepInv(trace, actions, n);
  }

  /**
   In no state of any run was a stop channel closed twice, and none will be by the next step: a channel a stop
   handler has taken to close is not closed yet, and no longer to be found by another stop handler.
   */
  lemma NoChannelClosedTwice(trace: seq<State>, actions: seq<Action>, n: nat)
    requires IsRun(trace, actions) && n < |trace|
    ensures !trace[n].doubleClose && trace[n].taken !! trace[n].closed
    ensures forall k :: k in trace[n].entries ==> trace[n].entries[k] !in trace[n].taken + trace[n].closed
  {
    RunsKeepInv(trace, actions, n);
  }

  /** However late a goroutine cleans up, it removes its own entry or nothing: a successor stays registered. */
  lemma LateCleanupSparesSuccessor(trace: seq<State>, actions: seq<Action>, n: nat, k: string)
    requires IsRun(trace, actions) && n < |actions| && actions[n].CleanUp?
    requires k in trace[n].entries && (k !in trace[n + 1].entries || trace[n + 1].entries[k] != trace[n].entries[k])
    ensures trace[n].entries[k] == actions[n].stop && k == trace[n].routines[actions[n].stop].key
  {
    RunsKeepInv(trace, actions, n);
    assert Step(trace[n], actions[n], trace[n + 1]);
  }

  /** Once everything of a key has been cleaned up, or told to stop, a new start is not a no-op. */
  lemma KeyIsFreeAgain(trace: seq<State>, actions: seq<Action>, n: nat, k: string)
    requires IsRun(trace, actions) && n < |trace|
    ensures k !in trace[n].entries <==> forall c: nat :: Standing(trace[n], c) ==> trace[n].routines[c].key != k
  {
    RunsKeepInv(trace, actions, n);
  }

  ghost predicate IsStart(s: State)
  {
    s == INIT
  }

  ghost predicate Occurs(s: State)
  {
    Reachable(IsStart, Step, s)
  }

  lemma Went(s: State, a: Action, r: State)
    requires Occurs(s) && Step(s, a, r)
    ensures Occurs(r)
  {
    StepIsReachable(IsStart, Step, s, a, r);
  }

  /**
   A key can be stopped and started again while the first goroutine has not cleaned up yet; its cleanup then finds
   the second one registered and leaves it there.
   */
  lemma KeyCanRestart(key: string) returns (s: State)
    ensures Occurs(s) && s.entries == map[key := 1] && s.closed == {0} && s.taken == {}
    ensures s.routines == [Goroutine(key, CleanedUpAfter), Goroutine(key, Running)]
  {
    InitialIsReachable(IsStart, Step, INIT);
    var first := [Goroutine(key, Running)];
    var one := State(map[key := 0], first, {}, {}, false);
    Went(INIT, Begin(key), one);
    var taken := State(map[], first, {0}, {}, false);
    Went(one, TakeStop(key), taken);
    var stopped := State(map[], first, {}, {0}, false);
    Went(taken, CloseStop(0), stopped);
    var exited := State(map[], [Goroutine(key, Exited)], {}, {0}, false);
    Went(stopped, Exit(0), exited);
    var again := State(map[key := 1], [Goroutine(key, Exited), Goroutine(key, Running)], {}, {0}, false);
    Went(exited, Begin(key), again);
    s := State(map[key := 1], [Goroutine(key, CleanedUpAfter), Goroutine(key, Running)], {}, {0}, false);
    Went(again, CleanUp(0), s);
  }
}
