/**
 Disconnect detection in the MQTT client (internal/mqtt/client.go): the consecutive-failure counter
 that declares a connection dead, and the per-session reason and close-once channel.
 */
module MqttClient {
  import opened Wrappers
  import opened Runs

  const MAX_FAILURES: nat := 3

  // ---------------------------------------------------------------- the failure counter

  /** Whether one more result trips the connection. */
  predicate TripsAt(failures: nat, success: bool)
  {
    !success && failures + 1 >= MAX_FAILURES
  }

  /** pubFailures after one more result. */
  function Counted(failures: nat, success: bool): nat
  {
    if success || TripsAt(failures, success) then 0 else failures + 1
  }

  /** pubFailures after a series of publish results, true for success. */
  function Counter(results: seq<bool>): nat
  {
    if results == [] then 0 else Counted(Counter(results[..|results| - 1]), results[|results| - 1])
  }

  /** Whether the last result of a series trips the connection. */
  predicate Trips(results: seq<bool>)
  {
    results != [] && TripsAt(Counter(results[..|results| - 1]), results[|results| - 1])
  }

  /** The number of failures at the end of a series. */
  function Streak(results: seq<bool>): nat
  {
    if results == [] || results[|results| - 1] then 0 else Streak(results[..|results| - 1]) + 1
  }

  lemma {:induction false} StreakIsTail(results: seq<bool>)
    ensures Streak(results) <= |results|
    ensures forall i :: |results| - Streak(results) <= i < |results| ==> !results[i]
    ensures Streak(results) < |results| ==> results[|results| - Streak(results) - 1]
  {
    if results != [] {
      StreakIsTail(results[..|results| - 1]);
    }
  }

  lemma OneMoreFailure(streak: nat)
    ensures Counted(streak % MAX_FAILURES, false) == (streak + 1) % MAX_FAILURES
    ensures TripsAt(streak % MAX_FAILURES, false) <==> (streak + 1) % MAX_FAILURES == 0
  {
  }

  /** The counter is the current failure streak modulo three, and a trip happens exactly at each multiple of three. */
  lemma {:induction false} CounterIsStreak(results: seq<bool>)
    ensures Counter(results) == Streak(results) % 3
    ensures Trips(results) <==> Streak(results) > 0 && Streak(results) % 3 == 0
  {
    if results != [] {
      var front := results[..|results| - 1];
      CounterIsStreak(front);
      OneMoreFailure(Streak(front));
    }
  }

  /** Three failures in a row, somewhere in the series. */
  ghost predicate ThreeInARow(results: seq<bool>)
  {
    exists i: nat :: i + 3 <= |results| && !results[i] && !results[i + 1] && !results[i + 2]
  }

  /** The first trip of a series comes with the first three failures in a row. */
  lemma {:induction false} FirstTrip(results: seq<bool>)
    ensures ThreeInARow(results) <==> Streak(results) >= 3 || (results != [] && ThreeInARow(results[..|results| - 1]))
    ensures Trips(results) ==> ThreeInARow(results)
    ensures ThreeInARow(results) && !Trips(results) ==> ThreeInARow(results[..|results| - 1])
  {
    StreakIsTail(results);
    CounterIsStreak(results);
    var n := |results|;
    if Streak(results) >= 3 {
      assert !results[n - 3] && !results[n - 3 + 1] && !results[n - 3 + 2];
    }
    if results != [] {
      var front := results[..n - 1];
      StreakIsTail(front);
      if ThreeInARow(front) {
        var i: nat :| i + 3 <= n - 1 && !front[i] && !front[i + 1] && !front[i + 2];
        assert !results[i] && !results[i + 1] && !results[i + 2];
      }
      if ThreeInARow(results) {
        var i: nat :| i + 3 <= n && !results[i] && !results[i + 1] && !results[i + 2];
        if i + 3 < n {
          assert !front[i] && !front[i + 1] && !front[i + 2];
        }
      }
      if Streak(results) > 3 {
        assert !front[n - 4] && !front[n - 4 + 1] && !front[n - 4 + 2];
      }
    }
  }

  lemma OneMoreResult(network: seq<bool>, i: nat)
    requires i < |network|
    ensures network[..i + 1] == network[..i] + [network[i]]
    ensures ThreeInARow(network[..i + 1]) <==> ThreeInARow(network[..i]) || Trips(network[..i + 1])
  {
    assert network[..i + 1][..i] == network[..i];
    FirstTrip(network[..i + 1]);
  }

  // ---------------------------------------------------------------- one session, one client

  /** disconnectState.set: the first reason wins. */
  function FirstOf(reason: Option<string>, err: string): Option<string>
  {
    if reason.Some? then reason else Some(err)
  }

  /** One connection attempt: its disconnect reason and its disconnect channel behind a sync.Once. */
  class Session {
    var reason: Option<string>
    var onceDone: bool
    ghost var closes: nat

    constructor ()
      ensures Valid() && reason.None? && !onceDone
    {
      reason, onceDone, closes := None, false, 0;
    }

    /** The channel has been closed once if the Once has run, and not at all otherwise. */
    ghost predicate Valid()
      reads this
    {
      closes == if onceDone then 1 else 0
    }

    /** disconnectState.set: the first reason wins. */
    method Set(err: string)
      modifies this`reason
      ensures reason == FirstOf(old(reason), err)
    {
      if reason.None? {
        reason := Some(err);
      }
    }

    method CloseOnce()
      requires Valid()
      modifies this`onceDone, this`closes
      ensures Valid() && onceDone
    {
      if !onceDone {
        onceDone := true;
        closes := closes + 1;
      }
    }

    /** OnClientError and OnServerDisconnect: whatever session is current, only this one is touched. */
    method OnLost(err: string)
      requires Valid()
      modifies this
      ensures Valid() && onceDone
      ensures reason == FirstOf(old(reason), err)
    {
      Set(err);
      CloseOnce();
    }
  }

  class PahoClient {
    var hasClient: bool
    var session: Session?
    var pubFailures: nat
    /** Publish results since the counter was last reset by Connect. */
    ghost var results: seq<bool>

    constructor ()
      ensures Valid() && session == null && !hasClient && results == []
    {
      hasClient, session, pubFailures, results := false, null, 0, [];
    }

    ghost predicate Valid()
      reads this
      reads if session == null then {} else {session}
    {
      && pubFailures == Counter(results)
      && (session != null ==> session.Valid())
    }

    /** A fresh session for each attempt; the counter is reset once the broker was reached. */
    method Connect(dialed: bool, accepted: bool) returns (ok: bool)
      requires Valid()
      modifies this
      ensures Valid() && session != null && fresh(session)
      ensures session.reason.None? && !session.onceDone
      ensures hasClient == (old(hasClient) || dialed)
      ensures results == if dialed then [] else old(results)
      ensures ok <==> dialed && accepted
    {
      session := new Session();
      if !dialed {
        return false;
      }
      pubFailures, results := 0, [];
      hasClient := true;
      return accepted;
    }

    /** A publish without a client is an error that counts neither as a failure nor as a success. */
    method Publish(delivered: bool) returns (ok: bool, tripped: bool)
      requires Valid()
      modifies this`pubFailures, this`results
      modifies session
      ensures Valid() && session == old(session)
      ensures ok <==> hasClient && delivered
      ensures !hasClient ==> !tripped && results == old(results)
      ensures hasClient ==> results == old(results) + [delivered] && tripped == Trips(results)
      ensures tripped && session != null ==> session.onceDone && session.reason.Some?
      ensures session != null && old(session.reason).Some? ==> session.reason == old(session.reason)
      ensures !tripped && session != null ==> session.onceDone == old(session.onceDone) && session.reason == old(session.reason)
    {
      if !hasClient {
        return false, false;
      }
      tripped := RecordPublishResult(delivered);
      ok := delivered;
    }

    /** Tells whether the connection was tripped. */
    method RecordPublishResult(success: bool) returns (tripped: bool)
      requires Valid()
      modifies this`pubFailures, this`results
      modifies session
      ensures Valid() && session == old(session)
      ensures results == old(results) + [success] && tripped == Trips(results)
      ensures tripped && session != null ==>
                session.onceDone && session.reason == FirstOf(old(session.reason), "3 consecutive publish failures, forcing reconnect")
      ensures !tripped && session != null ==> session.onceDone == old(session.onceDone) && session.reason == old(session.reason)
    {
      results := results + [success];
      assert results[..|results| - 1] == old(results);
      if success {
        pubFailures := 0;
        return false;
      }
      pubFailures := pubFailures + 1;
      tripped := pubFailures >= MAX_FAILURES;
      if tripped {
        pubFailures := 0;
        TripDisconnect("3 consecutive publish failures, forcing reconnect");
      }
    }

    method TripDisconnect(reason: string)
      requires session != null ==> session.Valid()
      modifies session
      ensures session != null ==> session.Valid() && session.onceDone
      ensures session != null ==> session.reason == FirstOf(old(session.reason), reason)
    {
      if session != null {
        session.OnLost(reason);
      }
    }

    method Disconnect()
      requires Valid()
      modifies session
      ensures Valid()
      ensures session != null ==> session.reason == old(session.reason) && session.onceDone == (old(session.onceDone) || hasClient)
    {
      if !hasClient {
        return;
      }
      if session != null {
        session.CloseOnce();
      }
    }
  }

  /**
   Connecting and then publishing any series of messages: each is delivered as the network says, and the
   session ends up closed, with a reason, exactly if three of them failed in a row.
   */
  method ConnectAndPublish(client: PahoClient, network: seq<bool>) returns (delivered: seq<bool>)
    requires client.Valid()
    modifies client
    ensures client.Valid() && client.session != null && client.hasClient
    ensures delivered == network
    ensures client.session.onceDone <==> ThreeInARow(network)
    ensures client.session.reason.Some? <==> ThreeInARow(network)
  {
    var connected := client.Connect(true, true);
    delivered := [];
    assert !ThreeInARow(network[..0]);
    for i := 0 to |network|
      invariant client.Valid() && client.session != null && fresh(client.session) && client.hasClient
      invariant delivered == client.results == network[..i]
      invariant client.session.onceDone == client.session.reason.Some? == ThreeInARow(network[..i])
    {
      OneMoreResult(network, i);
      var ok, tripped := client.Publish(network[i]);
      delivered := delivered + [ok];
    }
    assert network[..|network|] == network;
  }

  // ---------------------------------------------------------------- all interleavings

  /** A session as seen from outside: its reason, its Once, and how often and by whom its channel was closed. */
  datatype Seen = Seen(reason: Option<string>, onceDone: bool, closes: nat, byDisconnect: bool)

  /** A callback, trip or Disconnect call under way; Disconnect carries no reason. */
  datatype Call = Call(session: nat, reason: Option<string>, reasonSet: bool)

  /** results are those since the counter was last reset by a connect. */
  datatype State = State(sessions: seq<Seen>, failures: nat, results: seq<bool>, trips: nat, calls: seq<Call>)

  const INIT := State([], 0, [], 0, [])

  datatype Action =
    | NewSession(dialed: bool)
    | PublishResult(success: bool)
    | EnterTrip(reason: string)              // tripDisconnect picks whatever session is current by then
    | EnterCallback(session: nat, reason: string)
    | EnterDisconnect
    | SetReason(call: nat)
    | CloseChannel(call: nat)

  function WithReason(seen: Seen, reason: Option<string>): Seen
  {
    if reason.Some? then seen.(reason := FirstOf(seen.reason, reason.value)) else seen
  }

  /** closeOnce.Do: the close runs if the Once has not. */
  function ClosedOnce(seen: Seen, byDisconnect: bool): Seen
  {
    if seen.onceDone then seen else seen.(onceDone := true, closes := seen.closes + 1, byDisconnect := byDisconnect)
  }

  ghost predicate Step(s: State, a: Action, r: State)
  {
    match a
    case NewSession(dialed) =>
      r == s.(sessions := s.sessions + [Seen(None, false, 0, false)],
              failures := if dialed then 0 else s.failures, results := if dialed then [] else s.results)
    case PublishResult(success) =>
      r == s.(failures := Counted(s.failures, success), results := s.results + [success],
              trips := s.trips + if TripsAt(s.failures, success) then 1 else 0)
    case EnterTrip(reason) =>
      s.trips > 0 && s.sessions != []
      && r == s.(trips := s.trips - 1, calls := s.calls + [Call(|s.sessions| - 1, Some(reason), false)])
    case EnterCallback(k, reason) =>
      k < |s.sessions| && r == s.(calls := s.calls + [Call(k, Some(reason), false)])
    case EnterDisconnect =>
      s.sessions != [] && r == s.(calls := s.calls + [Call(|s.sessions| - 1, None, true)])
    case SetReason(i) =>
      i < |s.calls| && !s.calls[i].reasonSet && s.calls[i].session < |s.sessions|
      && var k := s.calls[i].session;
         r == s.(sessions := s.sessions[k := WithReason(s.sessions[k], s.calls[i].reason)],
                 calls := s.calls[i := s.calls[i].(reasonSet := true)])
    case CloseChannel(i) =>
      i < |s.calls| && s.calls[i].reasonSet && s.calls[i].session < |s.sessions|
      && var k := s.calls[i].session;
         r == s.(sessions := s.sessions[k := ClosedOnce(s.sessions[k], s.calls[i].reason.None?)],
                 calls := s.calls[..i] + s.calls[i + 1..])
  }

  ghost predicate IsRun(trace: seq<State>, actions: seq<Action>)
  {
    Chain(Step, trace, actions) && trace[0] == INIT
  }

  predicate SeenOk(seen: Seen)
  {
    && seen.closes == (if seen.onceDone then 1 else 0)
    && (seen.closes > 0 && !seen.byDisconnect ==> seen.reason.Some?)
  }

  ghost predicate Inv(s: State)
  {
    && s.failures == Counter(s.results)
    && (forall k :: 0 <= k < |s.sessions| ==> SeenOk(s.sessions[k]))
    && (forall i :: 0 <= i < |s.calls| ==>
          && s.calls[i].session < |s.sessions|
          && (s.calls[i].reasonSet && s.calls[i].reason.Some? ==> s.sessions[s.calls[i].session].reason.Some?))
  }

  lemma StepKeepsInv(s: State, a: Action, r: State)
    requires Inv(s) && Step(s, a, r)
    ensures Inv(r)
  {
    match a {
      case PublishResult(success) => assert r.results[..|s.results|] == s.results;
      case SetReason(_) =>
      case CloseChannel(_) =>
      case _ =>
    }
  }

  lemma {:induction false} RunsKeepInv(trace: seq<State>, actions: seq<Action>, n: nat)
    requires IsRun(trace, actions) && n < |trace|
    ensures Inv(trace[n])
  {
    if n > 0 {
      RunsKeepInv(trace, actions, n - 1);
      assert Step(trace[n - 1], actions[n - 1], trace[n - 1 + 1]);
      StepKeepsInv(trace[n - 1], actions[n - 1], trace[n]);
    }
  }

  /**
   Whatever callbacks, trips and disconnects race, each session's channel is closed at most once, and
   unless Disconnect closed it, a reason was recorded before.
   */
  lemma ClosedOnceWithReason(trace: seq<State>, actions: seq<Action>, n: nat, k: nat)
    requires IsRun(trace, actions) && n < |trace| && k < |trace[n].sessions|
    ensures trace[n].sessions[k].closes <= 1
    ensures trace[n].sessions[k].closes == 1 && !trace[n].sessions[k].byDisconnect ==> trace[n].sessions[k].reason.Some?
  {
    RunsKeepInv(trace, actions, n);
    assert SeenOk(trace[n].sessions[k]);
  }

  /** In every run the counter is the failure streak modulo three, and a result trips exactly at each multiple. */
  lemma TripsAtEveryThirdFailure(trace: seq<State>, actions: seq<Action>, n: nat)
    requires IsRun(trace, actions) && n < |actions| && actions[n].PublishResult?
    ensures var results := trace[n + 1].results;
            && trace[n + 1].failures == Streak(results) % 3
            && (trace[n + 1].trips == trace[n].trips + 1 <==> Streak(results) > 0 && Streak(results) % 3 == 0)
  {
    RunsKeepInv(trace, actions, n);
    RunsKeepInv(trace, actions, n + 1);
    assert Step(trace[n], actions[n], trace[n + 1]);
    assert trace[n + 1].results[..|trace[n].results|] == trace[n].results;
    CounterIsStreak(trace[n + 1].results);
  }

  /** A call that runs to its end leaves its session's channel closed. */
  lemma EveryCallCloses(trace: seq<State>, actions: seq<Action>, n: nat)
    requires IsRun(trace, actions) && n < |actions| && actions[n].CloseChannel?
    ensures actions[n].call < |trace[n].calls|
    ensures var k := trace[n].calls[actions[n].call].session;
            k < |trace[n + 1].sessions| && trace[n + 1].sessions[k].closes == 1
  {
    RunsKeepInv(trace, actions, n);
    assert Step(trace[n], actions[n], trace[n + 1]);
    assert SeenOk(trace[n].sessions[trace[n].calls[actions[n].call].session]);
  }

  /** Once a session has a reason it keeps it, and once closed it stays as it is; other sessions' steps do not touch it. */
  lemma {:induction false} FirstReasonStays(trace: seq<State>, actions: seq<Action>, m: nat, n: nat, k: nat)
    requires IsRun(trace, actions) && m <= n < |trace| && k < |trace[m].sessions|
    ensures k < |trace[n].sessions|
    ensures trace[m].sessions[k].reason.Some? ==> trace[n].sessions[k].reason == trace[m].sessions[k].reason
    ensures trace[m].sessions[k].onceDone ==>
              trace[n].sessions[k].onceDone && trace[n].sessions[k].closes == trace[m].sessions[k].closes
              && trace[n].sessions[k].byDisconnect == trace[m].sessions[k].byDisconnect
  {
    if m < n {
      FirstReasonStays(trace, actions, m, n - 1, k);
      assert Step(trace[n - 1], actions[n - 1], trace[n - 1 + 1]);
    }
  }

  /** The session an action is about, if any. */
  function Touched(s: State, a: Action): Option<nat>
  {
    match a
    case SetReason(i) => if i < |s.calls| then Some(s.calls[i].session) else None
    case CloseChannel(i) => if i < |s.calls| then Some(s.calls[i].session) else None
    case _ => None
  }

  /** A late callback of an old session changes that session only. */
  lemma OtherSessionsUntouched(trace: seq<State>, actions: seq<Action>, n: nat, k: nat)
    requires IsRun(trace, actions) && n < |actions| && k < |trace[n].sessions|
    requires Touched(trace[n], actions[n]) != Some(k)
    ensures k < |trace[n + 1].sessions| && trace[n + 1].sessions[k] == trace[n].sessions[k]
  {
    assert Step(trace[n], actions[n], trace[n + 1]);
  }

  // ---------------------------------------------------------------- whose channel a call closes

  /** A call for session k starts here: a callback of k itself, or a trip or Disconnect while k is the newest session. */
  predicate EntersFor(s: State, a: Action, k: nat)
  {
    match a
    case EnterCallback(session, _) => session == k
    case EnterTrip(_) => |s.sessions| == k + 1
    case EnterDisconnect => |s.sessions| == k + 1
    case _ => false
  }

  /** Every call under way was entered for its session at some earlier step. */
  lemma {:induction false} CallWasEntered(trace: seq<State>, actions: seq<Action>, n: nat, i: nat) returns (m: nat)
    requires IsRun(trace, actions) && n < |trace| && i < |trace[n].calls|
    ensures m < n && EntersFor(trace[m], actions[m], trace[n].calls[i].session)
  {
    assert n > 0;
    var s, a := trace[n - 1], actions[n - 1];
    assert Step(s, a, trace[n - 1 + 1]);
    if (a.EnterTrip? || a.EnterCallback? || a.EnterDisconnect?) && i == |s.calls| {
      m := n - 1;
    } else {
      m := CallWasEntered(trace, actions, n - 1, if a.CloseChannel? && i >= a.call then i + 1 else i);
    }
  }

  /**
   A session that is closed, or has a reason, owes it to a callback of its own, or to a trip or a Disconnect
   that was entered while it was the newest session; nothing entered for another session gets there.
   */
  lemma {:induction false} ClosedOnlyByItsOwn(trace: seq<State>, actions: seq<Action>, n: nat, k: nat) returns (m: nat)
    requires IsRun(trace, actions) && n < |trace| && k < |trace[n].sessions|
    requires trace[n].sessions[k].closes > 0 || trace[n].sessions[k].reason.Some?
    ensures m < n && EntersFor(trace[m], actions[m], k)
  {
    assert n > 0;
    var s, a := trace[n - 1], actions[n - 1];
    assert Step(s, a, trace[n - 1 + 1]);
    if k < |s.sessions| && (s.sessions[k].closes > 0 || s.sessions[k].reason.Some?) {
      m := ClosedOnlyByItsOwn(trace, actions, n - 1, k);
    } else {
      m := CallWasEntered(trace, actions, n - 1, a.call);
    }
  }

  lemma {:induction false} SessionsOnlyGrow(trace: seq<State>, actions: seq<Action>, m: nat, n: nat)
    requires IsRun(trace, actions) && m <= n < |trace|
    ensures |trace[m].sessions| <= |trace[n].sessions|
    ensures |trace[m].sessions| == |trace[n].sessions| <==> forall k: nat :: m <= k < n ==> !actions[k].NewSession?
  {
    if m < n {
      SessionsOnlyGrow(trace, actions, m, n - 1);
      assert Step(trace[n - 1], actions[n - 1], trace[n - 1 + 1]);
    }
  }

  /** This result decides a trip. */
  predicate DecidesTrip(s: State, a: Action)
  {
    a.PublishResult? && TripsAt(s.failures, a.success)
  }

  /**
   A trip decided at step m and entered at step n is for the session that was the newest when it was decided
   exactly if no session was started in between; otherwise it closes a later session.
   */
  lemma TripHitsItsSessionExactly(trace: seq<State>, actions: seq<Action>, m: nat, n: nat)
    requires IsRun(trace, actions) && m < n < |actions| && trace[m].sessions != []
    requires DecidesTrip(trace[m], actions[m]) && actions[n].EnterTrip?
    ensures EntersFor(trace[n], actions[n], |trace[m].sessions| - 1)
            <==> forall k: nat :: m < k < n ==> !actions[k].NewSession?
    ensures forall k: nat :: EntersFor(trace[n], actions[n], k) ==> k >= |trace[m].sessions| - 1
  {
    SessionsOnlyGrow(trace, actions, m, n);
    assert Step(trace[m], actions[m], trace[m + 1]);
    assert Step(trace[n], actions[n], trace[n + 1]);
  }

  ghost predicate IsStart(s: State)
  {
    s == INIT
  }

  ghost predicate Occurs(s: State)
  {
    Reachable(IsStart, Step, s)
  }

  lemma Went(s: State, a: Action, r: State)
    requires Occurs(s) && Step(s, a, r)
    ensures Occurs(r)
  {
    StepIsReachable(IsStart, Step, s, a, r);
  }

  /** One session with three failed publishes behind it: a trip is due, the counter starts over. */
  lemma TripIsDue() returns (s: State)
    ensures Occurs(s) && s == State([Seen(None, false, 0, false)], 0, [false, false, false], 1, [])
  {
    InitialIsReachable(IsStart, Step, INIT);
    var one := State([Seen(None, false, 0, false)], 0, [], 0, []);
    Went(INIT, NewSession(true), one);
    Went(one, PublishResult(false), one.(failures := 1, results := [false]));
    Went(one.(failures := 1, results := [false]), PublishResult(false), one.(failures := 2, results := [false, false]));
    s := one.(results := [false, false, false], trips := 1);
    Went(one.(failures := 2, results := [false, false]), PublishResult(false), s);
  }

  /**
   A trip decided on the failures of one session closes the next one, which has had no result at all: the
   lock is given up between counting and tripping, and a connect comes in between. The session that failed
   is left open.
   */
  lemma TripCanCloseNextSession(reason: string) returns (s: State)
    ensures Occurs(s) && |s.sessions| == 2 && s.results == [] && s.trips == 0 && s.calls == []
    ensures s.sessions[0].closes == 0 && s.sessions[0].reason.None?
    ensures s.sessions[1].closes == 1 && s.sessions[1].reason == Some(reason)
  {
    var due := TripIsDue();
    var next := State(due.sessions + [Seen(None, false, 0, false)], 0, [], 1, []);
    Went(due, NewSession(true), next);
    var entered := next.(trips := 0, calls := [Call(1, Some(reason), false)]);
    Went(next, EnterTrip(reason), entered);
    var named := entered.(sessions := [next.sessions[0], Seen(Some(reason), false, 0, false)],
                          calls := [Call(1, Some(reason), true)]);
    Went(entered, SetReason(0), named);
    s := named.(sessions := [next.sessions[0], Seen(Some(reason), true, 1, false)], calls := []);
    Went(named, CloseChannel(0), s);
  }
}
