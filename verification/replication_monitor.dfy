/** Replication health on the primary: how long each member has held its state, which
    thresholds a poll crosses, and one alert per incident. */
module ReplicationMonitor {
  import opened Wrappers

  // ---------------------------------------------------------------- thresholds

  const RECOVERING := "RECOVERING"
  const STARTUP2 := "STARTUP2"
  const SECONDARY := "SECONDARY"
  const STUCK_STATE_DWELL: nat := 900_000   // milliseconds
  const OPLOG_WINDOW_FLOOR: nat := 3600     // seconds
  const OPLOG_SIZE_BOUNDED_FILL: real := 0.9

  /** Dwells are in milliseconds, optimes and windows in whole seconds. */
  datatype Observation = Observation(host: string, state: string, optime: Option<nat>, isSelf: bool, healthy: bool, dwell: nat)

  datatype Signal =
    | StuckInState(host: string, state: string, stuckFor: nat)
    | FallingOffOplog(host: string, lag: nat, window: nat)
    | OplogWindowLow(window: nat)

  predicate Stuck(m: Observation) {
    !m.isSelf && (m.state == RECOVERING || m.state == STARTUP2) && m.dwell >= STUCK_STATE_DWELL
  }

  /** Three quarters of the window, compared on whole seconds. */
  predicate FallingOff(m: Observation, window: Option<nat>, primary: Option<nat>) {
    && !m.isSelf && m.healthy && m.state == SECONDARY
    && window.Some? && primary.Some? && m.optime.Some? && m.optime.value < primary.value
    && 4 * (primary.value - m.optime.value) >= 3 * window.value
  }

  function MemberSignals(m: Observation, window: Option<nat>, primary: Option<nat>): seq<Signal> {
    (if Stuck(m) then [StuckInState(m.host, m.state, m.dwell)] else [])
    + (if FallingOff(m, window, primary) then [FallingOffOplog(m.host, primary.value - m.optime.value, window.value)] else [])
  }

  function AllMemberSignals(members: seq<Observation>, window: Option<nat>, primary: Option<nat>): seq<Signal> {
    if members == [] then []
    else
      AllMemberSignals(members[..|members| - 1], window, primary)
      + MemberSignals(members[|members| - 1], window, primary)
  }

  function Bounded(window: Option<nat>, sizeBounded: bool): Option<nat> {
    if sizeBounded then window else None
  }

  function Signals(window: Option<nat>, sizeBounded: bool, primary: Option<nat>, members: seq<Observation>): seq<Signal> {
    var bounded := Bounded(window, sizeBounded);
    (if bounded.Some? && bounded.value < OPLOG_WINDOW_FLOOR then [OplogWindowLow(bounded.value)] else [])
    + AllMemberSignals(members, bounded, primary)
  }

  method DeriveSignals(window: Option<nat>, sizeBounded: bool, primary: Option<nat>, members: seq<Observation>)
    returns (signals: seq<Signal>)
    ensures signals == Signals(window, sizeBounded, primary, members)
  {
    signals := [];
    var bounded := if sizeBounded then window else None;
    if bounded.Some? && bounded.value < OPLOG_WINDOW_FLOOR {
      signals := signals + [OplogWindowLow(bounded.value)];
    }

    ghost var first := signals;
    for i := 0 to |members|
      invariant signals == first + AllMemberSignals(members[..i], bounded, primary)
    {
      assert members[..i + 1][..i] == members[..i];
      var m := members[i];
      ghost var before := signals;
      if m.isSelf {
        assert signals == before + MemberSignals(m, bounded, primary);
        continue;
      }
      if (m.state == RECOVERING || m.state == STARTUP2) && m.dwell >= STUCK_STATE_DWELL {
        signals := signals + [StuckInState(m.host, m.state, m.dwell)];
      }
      var replicating := m.healthy && m.state == SECONDARY;
      if replicating && bounded.Some? && primary.Some? && m.optime.Some? {
        if m.optime.value < primary.value {
          var lag := primary.value - m.optime.value;
          if 4 * lag >= 3 * bounded.value {
            signals := signals + [FallingOffOplog(m.host, lag, bounded.value)];
          }
        }
      }
      assert signals == before + MemberSignals(m, bounded, primary);
    }
    assert members[..|members|] == members;
  }

  lemma {:induction false} MemberSignalsMean(signal: Signal, members: seq<Observation>, window: Option<nat>, primary: Option<nat>)
    ensures signal in AllMemberSignals(members, window, primary)
            <==> exists k | 0 <= k < |members| :: signal in MemberSignals(members[k], window, primary)
  {
    if members != [] {
      var n := |members| - 1;
      var before, last := AllMemberSignals(members[..n], window, primary), MemberSignals(members[n], window, primary);
      MemberSignalsMean(signal, members[..n], window, primary);
      assert AllMemberSignals(members, window, primary) == before + last;
      assert forall k | 0 <= k < n :: members[..n][k] == members[k];
      if signal in last {
        assert signal in MemberSignals(members[n], window, primary);
      }
    }
  }

  /** A signal is raised exactly when its threshold is crossed: nothing is missed and
      nothing else is reported. */
  lemma SignalsMean(signal: Signal, window: Option<nat>, sizeBounded: bool, primary: Option<nat>, members: seq<Observation>)
    ensures signal in Signals(window, sizeBounded, primary, members) <==>
            match signal
            case OplogWindowLow(w) => sizeBounded && window == Some(w) && w < 3600
            case StuckInState(host, state, stuckFor) =>
              exists m | m in members ::
                !m.isSelf && m.host == host && m.state == state && m.dwell == stuckFor
                && state in {"RECOVERING", "STARTUP2"} && stuckFor >= 900_000
            case FallingOffOplog(host, lag, w) =>
              sizeBounded && window == Some(w) && primary.Some?
              && exists m | m in members ::
                !m.isSelf && m.healthy && m.host == host && m.state == "SECONDARY"
                && m.optime.Some? && m.optime.value < primary.value
                && lag == primary.value - m.optime.value && 4 * lag >= 3 * w
  {
    MemberSignalsMean(signal, members, Bounded(window, sizeBounded), primary);
  }

  // ---------------------------------------------------------------- one key per incident

  function DedupeKey(signal: Signal): string {
    match signal
    case StuckInState(host, _, _) => "stuck:" + host
    case FallingOffOplog(host, _, _) => "falling-off:" + host
    case OplogWindowLow(_) => "oplog-window-low"
  }

  predicate SameIncident(a: Signal, b: Signal) {
    || (a.StuckInState? && b.StuckInState? && a.host == b.host)
    || (a.FallingOffOplog? && b.FallingOffOplog? && a.host == b.host)
    || (a.OplogWindowLow? && b.OplogWindowLow?)
  }

  lemma KeysIdentifyIncidents(a: Signal, b: Signal)
    ensures DedupeKey(a) == DedupeKey(b) <==> SameIncident(a, b)
  {
    assert DedupeKey(a)[0] == (match a case StuckInState(_, _, _) => 's' case FallingOffOplog(_, _, _) => 'f' case _ => 'o');
    assert DedupeKey(b)[0] == (match b case StuckInState(_, _, _) => 's' case FallingOffOplog(_, _, _) => 'f' case _ => 'o');
    if a.StuckInState? && b.StuckInState? {
      assert DedupeKey(a)[6..] == a.host && DedupeKey(b)[6..] == b.host;
    }
    if a.FallingOffOplog? && b.FallingOffOplog? {
      assert DedupeKey(a)[12..] == a.host && DedupeKey(b)[12..] == b.host;
    }
  }

  // ---------------------------------------------------------------- the dwell of a state

  datatype Held = Held(state: string, at: nat)

  function Elapsed(now: nat, at: nat): nat {
    if at <= now then now - at else 0
  }

  function Observed(since: map<string, Held>, host: string, state: string, now: nat): map<string, Held> {
    if host in since && since[host].state == state then since else since[host := Held(state, now)]
  }

  class MemberStateTracker {
    var since: map<string, Held>

    constructor ()
      ensures since == map[]
    {
      since := map[];
    }

    method Observe(host: string, state: string, now: nat) returns (dwell: nat)
      modifies this
      ensures since == Observed(old(since), host, state, now)
      ensures dwell == Elapsed(now, since[host].at)
    {
      if host in since && since[host].state == state {
        return Elapsed(now, since[host].at);
      }
      since := since[host := Held(state, now)];
      dwell := 0;
    }

    method RetainKnown(hosts: seq<string>)
      modifies this
      ensures since == map h | h in old(since) && h in hosts :: old(since)[h]
    {
      since := map h | h in since && h in hosts :: since[h];
    }
  }

  // ---------------------------------------------------------------- polls

  datatype Row = Row(host: string, state: string, isPrimary: bool, optime: Option<nat>, isSelf: bool, healthy: bool)

  /** One evaluated poll: the set status was read; an oplog window or fill that could
      not be read comes as absent. */
  datatype Poll = Poll(now: nat, rows: seq<Row>, window: Option<nat>, fill: Option<real>)

  /** An unknown fill counts as not bounded by size. */
  predicate SizeBounded(poll: Poll) {
    poll.fill.Some? && poll.fill.value >= OPLOG_SIZE_BOUNDED_FILL
  }

  function Hosts(rows: seq<Row>): seq<string> {
    seq(|rows|, i requires 0 <= i < |rows| => rows[i].host)
  }

  function ObservedAll(since: map<string, Held>, rows: seq<Row>, now: nat): map<string, Held> {
    if rows == [] then since
    else
      var row := rows[|rows| - 1];
      Observed(ObservedAll(since, rows[..|rows| - 1], now), row.host, row.state, now)
  }

  function Observations(since: map<string, Held>, rows: seq<Row>, now: nat): seq<Observation> {
    if rows == [] then []
    else
      var row := rows[|rows| - 1];
      Observations(since, rows[..|rows| - 1], now)
      + [Observation(row.host, row.state, row.optime, row.isSelf, row.healthy,
                     Elapsed(now, ObservedAll(since, rows, now)[row.host].at))]
  }

  function PrimaryOptime(rows: seq<Row>): Option<nat> {
    if rows == [] then None else if rows[0].isPrimary then rows[0].optime else PrimaryOptime(rows[1..])
  }

  function SinceAfter(polls: seq<Poll>): map<string, Held> {
    if polls == [] then map[]
    else
      var poll := polls[|polls| - 1];
      var seen := ObservedAll(SinceAfter(polls[..|polls| - 1]), poll.rows, poll.now);
      map h | h in seen && h in Hosts(poll.rows) :: seen[h]
  }

  function SignalsAt(polls: seq<Poll>): seq<Signal>
    requires polls != []
  {
    var poll := polls[|polls| - 1];
    Signals(poll.window, SizeBounded(poll), PrimaryOptime(poll.rows),
            Observations(SinceAfter(polls[..|polls| - 1]), poll.rows, poll.now))
  }

  function Keys(signals: seq<Signal>): set<string> {
    set signal | signal in signals :: DedupeKey(signal)
  }

  /** The incidents under way after `polls`. */
  function Active(polls: seq<Poll>): set<string> {
    if polls == [] then {} else Keys(SignalsAt(polls))
  }

  function ActiveTrace(key: string, polls: seq<Poll>): (trace: seq<bool>)
    ensures |trace| == |polls|
    ensures forall k | 0 <= k < |polls| :: trace[k] == (key in Active(polls[..k + 1]))
  {
    seq(|polls|, k requires 0 <= k < |polls| => key in Active(polls[..k + 1]))
  }

  predicate StartsARun(trace: seq<bool>, k: int) {
    0 <= k < |trace| && trace[k] && (k == 0 || !trace[k - 1])
  }

  /** The polls at which an unbroken run of activity begins, one per maximal run. */
  function RunStarts(trace: seq<bool>): set<int> {
    set k | 0 <= k < |trace| && StartsARun(trace, k)
  }

  lemma OneMoreStart(trace: seq<bool>)
    requires trace != []
    ensures var n := |trace| - 1;
            |RunStarts(trace)| == |RunStarts(trace[..n])| + if StartsARun(trace, n) then 1 else 0
  {
    var n := |trace| - 1;
    var before := RunStarts(trace[..n]);
    assert forall k | 0 <= k < n :: StartsARun(trace[..n], k) == StartsARun(trace, k);
    assert RunStarts(trace) == before + if StartsARun(trace, n) then {n} else {};
  }

  /** 1 for an incident under way that was not before. */
  function New(key: string, active: set<string>, before: set<string>): nat {
    if key in active && key !in before then 1 else 0
  }

  lemma TraceOfMore(key: string, polls: seq<Poll>, poll: Poll)
    ensures ActiveTrace(key, polls + [poll]) == ActiveTrace(key, polls) + [key in Active(polls + [poll])]
  {
    var more := polls + [poll];
    assert more[..|polls| + 1] == more;
    forall k | 0 <= k < |polls| ensures ActiveTrace(key, more)[k] == ActiveTrace(key, polls)[k] {
      assert more[..k + 1] == polls[..k + 1];
    }
  }

  lemma LastOfTrace(key: string, polls: seq<Poll>)
    requires polls != []
    ensures ActiveTrace(key, polls)[|polls| - 1] == (key in Active(polls))
  {
    assert polls[..|polls|] == polls;
  }

  lemma OneMorePoll(key: string, polls: seq<Poll>, poll: Poll)
    ensures |RunStarts(ActiveTrace(key, polls + [poll]))|
            == |RunStarts(ActiveTrace(key, polls))| + New(key, Active(polls + [poll]), Active(polls))
  {
    TraceOfMore(key, polls, poll);
    var trace := ActiveTrace(key, polls);
    var more := trace + [key in Active(polls + [poll])];
    assert more[..|trace|] == trace;
    OneMoreStart(more);
    if polls != [] {
      LastOfTrace(key, polls);
    }
  }

  /** The primary's monitor: `sent` is what telemetry got, by incident. */
  class Monitor {
    const tracker: MemberStateTracker
    var alerted: set<string>
    var sent: seq<string>
    ghost var polls: seq<Poll>

    constructor ()
      ensures Valid() && fresh(tracker) && polls == [] && sent == []
    {
      tracker := new MemberStateTracker();
      alerted, sent, polls := {}, [], [];
      new;
      assert forall key :: RunStarts(ActiveTrace(key, [])) == {};
    }

    /** The clocks and the alerts are those of the polls so far, and each incident was
        reported once per maximal run of polls that found it. */
    ghost predicate Valid()
      reads this, tracker
    {
      && tracker.since == SinceAfter(polls)
      && alerted == Active(polls)
      && forall key :: multiset(sent)[key] == |RunStarts(ActiveTrace(key, polls))|
    }

    method Observe(poll: Poll) returns (members: seq<Observation>)
      modifies tracker
      ensures members == Observations(old(tracker.since), poll.rows, poll.now)
      ensures var seen := ObservedAll(old(tracker.since), poll.rows, poll.now);
              tracker.since == map h | h in seen && h in Hosts(poll.rows) :: seen[h]
    {
      members := [];
      var hosts := [];
      for i := 0 to |poll.rows|
        invariant hosts == Hosts(poll.rows[..i])
        invariant tracker.since == ObservedAll(old(tracker.since), poll.rows[..i], poll.now)
        invariant members == Observations(old(tracker.since), poll.rows[..i], poll.now)
      {
        assert poll.rows[..i + 1][..i] == poll.rows[..i];
        var row := poll.rows[i];
        hosts := hosts + [row.host];
        var dwell := tracker.Observe(row.host, row.state, poll.now);
        members := members + [Observation(row.host, row.state, row.optime, row.isSelf, row.healthy, dwell)];
      }
      assert poll.rows[..|poll.rows|] == poll.rows;
      tracker.RetainKnown(hosts);
    }

    /** Sends what is new, and forgets what has cleared. */
    method Report(signals: seq<Signal>)
      modifies this`alerted, this`sent
      ensures alerted == Keys(signals)
      ensures forall key :: multiset(sent)[key] == multiset(old(sent))[key] + New(key, Keys(signals), old(alerted))
    {
      var stillActive := {};
      for i := 0 to |signals|
        invariant stillActive == Keys(signals[..i])
        invariant alerted == old(alerted) + stillActive
        invariant forall key :: multiset(sent)[key] == multiset(old(sent))[key] + New(key, stillActive, old(alerted))
      {
        var key := DedupeKey(signals[i]);
        assert signals[..i + 1] == signals[..i] + [signals[i]];
        stillActive := stillActive + {key};
        if key !in alerted {
          alerted := alerted + {key};
          sent := sent + [key];
        }
      }
      assert signals[..|signals|] == signals;
      alerted := set key | key in alerted && key in stillActive;
    }

    /** A status that cannot be read leaves everything as it was. */
    method Round(status: Option<Poll>)
      requires Valid()
      modifies this, tracker
      ensures Valid()
      ensures polls == if status.Some? then old(polls) + [status.value] else old(polls)
      ensures status.None? ==> sent == old(sent) && alerted == old(alerted)
    {
      if status.None? { return; }
      var poll := status.value;
      ghost var before := polls;
      var members := Observe(poll);
      var signals := DeriveSignals(poll.window, SizeBounded(poll), PrimaryOptime(poll.rows), members);
      Report(signals);
      polls := polls + [poll];
      assert polls[..|polls| - 1] == before;
      assert signals == SignalsAt(polls);
      forall key ensures multiset(sent)[key] == |RunStarts(ActiveTrace(key, polls))| {
        OneMorePoll(key, before, poll);
      }
    }
  }

  // ---------------------------------------------------------------- what the clocks say

  predicate OneRowPerHost(rows: seq<Row>) {
    forall i, j | 0 <= i < j < |rows| :: rows[i].host != rows[j].host
  }

  predicate Reports(poll: Poll, host: string, state: string) {
    exists row | row in poll.rows :: row.host == host && row.state == state
  }

  /** From poll `k` on the host reported `state` at every poll, and not just before. */
  predicate HoldsSince(polls: seq<Poll>, host: string, state: string, k: int) {
    && 0 <= k < |polls|
    && (forall j | k <= j < |polls| :: Reports(polls[j], host, state))
    && (k > 0 ==> !Reports(polls[k - 1], host, state))
  }

  lemma {:induction false} EachRowObservesItsOwnHost(since: map<string, Held>, rows: seq<Row>, now: nat, host: string)
    requires OneRowPerHost(rows)
    ensures host !in Hosts(rows) ==>
              (host in ObservedAll(since, rows, now) <==> host in since)
              && (host in since ==> ObservedAll(since, rows, now)[host] == since[host])
    ensures forall i | 0 <= i < |rows| && rows[i].host == host ::
              host in ObservedAll(since, rows, now)
              && ObservedAll(since, rows, now)[host] == Observed(since, host, rows[i].state, now)[host]
  {
    if rows != [] {
      var n := |rows| - 1;
      EachRowObservesItsOwnHost(since, rows[..n], now, host);
      assert forall k | 0 <= k < n :: Hosts(rows)[k] == Hosts(rows[..n])[k];
      assert Hosts(rows)[n] == rows[n].host;
      if rows[n].host == host {
        assert host !in Hosts(rows[..n]);
      }
    }
  }

  lemma OnlyOneState(poll: Poll, host: string, state: string, i: int)
    requires OneRowPerHost(poll.rows) && 0 <= i < |poll.rows| && poll.rows[i].host == host
    ensures Reports(poll, host, state) <==> poll.rows[i].state == state
  {
  }

  lemma HoldsOn(polls: seq<Poll>, host: string, state: string, k: int)
    requires polls != [] && HoldsSince(polls[..|polls| - 1], host, state, k)
    requires Reports(polls[|polls| - 1], host, state)
    ensures HoldsSince(polls, host, state, k)
  {
  }

  /** The clock of a host is the start of its current unbroken run of one state, over
      the polls taken; a host outside the last poll has no clock. */
  lemma {:induction false} ClockIsTheCurrentRun(polls: seq<Poll>, host: string)
    requires polls != [] && forall k | 0 <= k < |polls| :: OneRowPerHost(polls[k].rows)
    ensures host in SinceAfter(polls) <==> host in Hosts(polls[|polls| - 1].rows)
    ensures host in SinceAfter(polls) ==>
              var held := SinceAfter(polls)[host];
              exists k :: HoldsSince(polls, host, held.state, k) && held.at == polls[k].now
  {
    var n := |polls| - 1;
    var poll, before := polls[n], SinceAfter(polls[..n]);
    EachRowObservesItsOwnHost(before, poll.rows, poll.now, host);
    if host in Hosts(poll.rows) {
      var i :| 0 <= i < |poll.rows| && Hosts(poll.rows)[i] == host;
      var state := poll.rows[i].state;
      OnlyOneState(poll, host, state, i);
      if n > 0 {
        ClockIsTheCurrentRun(polls[..n], host);
        assert polls[..n][n - 1] == polls[n - 1];
      }
      if host in before && before[host].state == state {
        var k :| HoldsSince(polls[..n], host, state, k) && before[host].at == polls[..n][k].now;
        HoldsOn(polls, host, state, k);
      } else {
        if n > 0 && Reports(polls[n - 1], host, state) {
          LastStateIsHeld(polls[..n], host, state);
        }
        assert HoldsSince(polls, host, state, n);
      }
    }
  }

  lemma {:induction false} LastStateIsHeld(polls: seq<Poll>, host: string, state: string)
    requires polls != [] && forall k | 0 <= k < |polls| :: OneRowPerHost(polls[k].rows)
    requires Reports(polls[|polls| - 1], host, state)
    ensures host in SinceAfter(polls) && SinceAfter(polls)[host].state == state
  {
    var n := |polls| - 1;
    var poll := polls[n];
    var row :| row in poll.rows && row.host == host && row.state == state;
    var i :| 0 <= i < |poll.rows| && poll.rows[i] == row;
    assert Hosts(poll.rows)[i] == host;
    EachRowObservesItsOwnHost(SinceAfter(polls[..n]), poll.rows, poll.now, host);
  }

  lemma RunStartIsUnique(polls: seq<Poll>, host: string, state: string, k: int, j: int)
    requires HoldsSince(polls, host, state, k) && HoldsSince(polls, host, state, j)
    ensures k == j
  {
  }

  lemma {:induction false} ObservationAt(since: map<string, Held>, rows: seq<Row>, now: nat, i: int)
    requires OneRowPerHost(rows) && 0 <= i < |rows|
    ensures |Observations(since, rows, now)| == |rows|
    ensures rows[i].host in ObservedAll(since, rows, now)
    ensures Observations(since, rows, now)[i] ==
            Observation(rows[i].host, rows[i].state, rows[i].optime, rows[i].isSelf, rows[i].healthy,
                        Elapsed(now, ObservedAll(since, rows, now)[rows[i].host].at))
  {
    var n := |rows| - 1;
    EachRowObservesItsOwnHost(since, rows, now, rows[i].host);
    if n > 0 {
      ObservationAt(since, rows[..n], now, if i < n then i else 0);
    }
    if i < n {
      EachRowObservesItsOwnHost(since, rows[..n], now, rows[i].host);
    }
  }

  /** The row's dwell, as the signals see it, is the time since its run began. */
  lemma DwellIsTheCurrentRun(polls: seq<Poll>, i: int)
    requires polls != [] && forall k | 0 <= k < |polls| :: OneRowPerHost(polls[k].rows)
    requires 0 <= i < |polls[|polls| - 1].rows|
    ensures var n := |polls| - 1;
            var row := polls[n].rows[i];
            var seen := Observations(SinceAfter(polls[..n]), polls[n].rows, polls[n].now);
            && |seen| == |polls[n].rows|
            && exists k :: HoldsSince(polls, row.host, row.state, k)
                           && seen[i] == Observation(row.host, row.state, row.optime, row.isSelf, row.healthy,
                                                     Elapsed(polls[n].now, polls[k].now))
  {
    var n := |polls| - 1;
    var row := polls[n].rows[i];
    ObservationAt(SinceAfter(polls[..n]), polls[n].rows, polls[n].now, i);
    assert Hosts(polls[n].rows)[i] == row.host;
    assert Reports(polls[n], row.host, row.state);
    LastStateIsHeld(polls, row.host, row.state);
    ClockIsTheCurrentRun(polls, row.host);
  }

  predicate StuckFor(polls: seq<Poll>, row: Row, k: int) {
    && !row.isSelf && row.state in {"RECOVERING", "STARTUP2"}
    && HoldsSince(polls, row.host, row.state, k)
    && polls[|polls| - 1].now >= polls[k].now + 900_000
  }

  /** The rows as the last poll's signals see them. */
  function LastSeen(polls: seq<Poll>): seq<Observation>
    requires polls != []
  {
    var n := |polls| - 1;
    Observations(SinceAfter(polls[..n]), polls[n].rows, polls[n].now)
  }

  lemma LastSignalsMean(polls: seq<Poll>, host: string, state: string, stuckFor: nat)
    requires polls != []
    ensures StuckInState(host, state, stuckFor) in SignalsAt(polls) <==>
            exists m | m in LastSeen(polls) ::
              !m.isSelf && m.host == host && m.state == state && m.dwell == stuckFor
              && state in {"RECOVERING", "STARTUP2"} && stuckFor >= 900_000
  {
    var poll := polls[|polls| - 1];
    SignalsMean(StuckInState(host, state, stuckFor), poll.window, SizeBounded(poll), PrimaryOptime(poll.rows), LastSeen(polls));
  }

  lemma ReportedIsStuck(polls: seq<Poll>, host: string) returns (row: Row, k: int)
    requires polls != [] && forall k | 0 <= k < |polls| :: OneRowPerHost(polls[k].rows)
    requires "stuck:" + host in Active(polls)
    ensures row in polls[|polls| - 1].rows && row.host == host && StuckFor(polls, row, k)
  {
    var rows, seen := polls[|polls| - 1].rows, LastSeen(polls);
    var signal := StuckSignal(polls, host);
    LastSignalsMean(polls, host, signal.state, signal.stuckFor);
    var m :| m in seen && !m.isSelf && m.host == host && m.state == signal.state && m.dwell == signal.stuckFor;
    var i :| 0 <= i < |seen| && seen[i] == m;
    SeenPerRow(polls);
    DwellIsTheCurrentRun(polls, i);
    row := rows[i];
    k :| HoldsSince(polls, host, row.state, k) && m.dwell == Elapsed(polls[|polls| - 1].now, polls[k].now);
  }

  lemma SeenPerRow(polls: seq<Poll>)
    requires polls != [] && OneRowPerHost(polls[|polls| - 1].rows)
    ensures |LastSeen(polls)| == |polls[|polls| - 1].rows|
  {
    var n := |polls| - 1;
    if polls[n].rows != [] {
      ObservationAt(SinceAfter(polls[..n]), polls[n].rows, polls[n].now, 0);
    }
  }

  lemma StuckIsReported(polls: seq<Poll>, row: Row, k: int)
    requires polls != [] && forall k | 0 <= k < |polls| :: OneRowPerHost(polls[k].rows)
    requires row in polls[|polls| - 1].rows && StuckFor(polls, row, k)
    ensures "stuck:" + row.host in Active(polls)
  {
    var poll, seen := polls[|polls| - 1], LastSeen(polls);
    var i :| 0 <= i < |poll.rows| && poll.rows[i] == row;
    DwellIsTheCurrentRun(polls, i);
    var j :| HoldsSince(polls, row.host, row.state, j) && seen[i].dwell == Elapsed(poll.now, polls[j].now);
    RunStartIsUnique(polls, row.host, row.state, k, j);
    LastSignalsMean(polls, row.host, row.state, seen[i].dwell);
    assert seen[i] in seen;
    var signal := StuckInState(row.host, row.state, seen[i].dwell);
    assert signal in SignalsAt(polls) && DedupeKey(signal) == "stuck:" + row.host;
  }

  /** After any polls, a host is reported stuck exactly if it is another member that
      has been in one and the same of the two catching-up states at every poll of the
      last 900 s or more. */
  lemma StuckExactlyForTheDwell(polls: seq<Poll>, host: string)
    requires polls != [] && forall k | 0 <= k < |polls| :: OneRowPerHost(polls[k].rows)
    ensures "stuck:" + host in Active(polls) <==>
            exists row, k :: row in polls[|polls| - 1].rows && row.host == host && StuckFor(polls, row, k)
  {
    if "stuck:" + host in Active(polls) {
      var row, k := ReportedIsStuck(polls, host);
    }
    if row, k :| row in polls[|polls| - 1].rows && row.host == host && StuckFor(polls, row, k) {
      StuckIsReported(polls, row, k);
    }
  }

  lemma StuckSignal(polls: seq<Poll>, host: string) returns (signal: Signal)
    requires polls != [] && "stuck:" + host in Active(polls)
    ensures signal in SignalsAt(polls) && signal.StuckInState? && signal.host == host
  {
    signal :| signal in SignalsAt(polls) && DedupeKey(signal) == "stuck:" + host;
    KeysIdentifyIncidents(signal, StuckInState(host, "", 0));
  }

  // ---------------------------------------------------------------- what the oplog signals say

  lemma {:induction false} ObservedRow(since: map<string, Held>, rows: seq<Row>, now: nat, i: int)
    requires 0 <= i < |rows|
    ensures |Observations(since, rows, now)| == |rows|
    ensures var m := Observations(since, rows, now)[i];
            && m.host == rows[i].host && m.state == rows[i].state && m.optime == rows[i].optime
            && m.isSelf == rows[i].isSelf && m.healthy == rows[i].healthy
  {
    var n := |rows| - 1;
    if n > 0 {
      ObservedRow(since, rows[..n], now, if i < n then i else 0);
    }
  }

  /** Row `k` is the first one of a primary. */
  predicate FirstPrimary(rows: seq<Row>, k: int) {
    0 <= k < |rows| && rows[k].isPrimary && forall i | 0 <= i < k :: !rows[i].isPrimary
  }

  /** The optime lags are measured from: the first primary's, and none exactly without a
      primary or without its optime. */
  lemma {:induction false} PrimaryOptimeIsTheFirstPrimarys(rows: seq<Row>)
    ensures forall k | FirstPrimary(rows, k) :: PrimaryOptime(rows) == rows[k].optime
    ensures PrimaryOptime(rows).None? <==> forall k | FirstPrimary(rows, k) :: rows[k].optime.None?
  {
    if rows != [] {
      PrimaryOptimeIsTheFirstPrimarys(rows[1..]);
      if !rows[0].isPrimary {
        forall k | FirstPrimary(rows, k) ensures FirstPrimary(rows[1..], k - 1) && rows[1..][k - 1] == rows[k] {
        }
        forall k | FirstPrimary(rows[1..], k) ensures FirstPrimary(rows, k + 1) && rows[k + 1] == rows[1..][k] {
        }
      } else {
        assert FirstPrimary(rows, 0);
      }
    }
  }

  /** A row that lags by three quarters of the window or more behind that of a primary. */
  predicate RowFallsOff(row: Row, window: nat, primary: Row) {
    && !row.isSelf && row.healthy && row.state == "SECONDARY"
    && primary.optime.Some? && row.optime.Some? && row.optime.value < primary.optime.value
    && 4 * (primary.optime.value - row.optime.value) >= 3 * window
  }

  /** The poll could read a window, and the oplog is full enough for it to count. */
  predicate ReadsOplog(poll: Poll) {
    poll.window.Some? && poll.fill.Some? && poll.fill.value >= 0.9
  }

  predicate WindowIsLow(poll: Poll) {
    poll.window.Some? && poll.window.value < 3600
  }

  predicate HostFallsOff(poll: Poll, host: string) {
    poll.window.Some? && exists row, k | row in poll.rows && 0 <= k < |poll.rows| ::
      FirstPrimary(poll.rows, k) && row.host == host && RowFallsOff(row, poll.window.value, poll.rows[k])
  }

  /** The oplog-window incident is under way exactly if the last poll could read a
      size-bounded oplog and found its window below an hour. */
  lemma LowExactlyWhenRead(polls: seq<Poll>)
    requires polls != []
    ensures var poll := polls[|polls| - 1];
            "oplog-window-low" in Active(polls) <==> ReadsOplog(poll) && WindowIsLow(poll)
  {
    var poll := polls[|polls| - 1];
    if "oplog-window-low" in Active(polls) {
      var signal :| signal in SignalsAt(polls) && DedupeKey(signal) == "oplog-window-low";
      KeysIdentifyIncidents(signal, OplogWindowLow(0));
      SignalsMean(signal, poll.window, SizeBounded(poll), PrimaryOptime(poll.rows), LastSeen(polls));
    }
    if ReadsOplog(poll) && WindowIsLow(poll) {
      var signal := OplogWindowLow(poll.window.value);
      SignalsMean(signal, poll.window, SizeBounded(poll), PrimaryOptime(poll.rows), LastSeen(polls));
      assert signal in SignalsAt(polls) && DedupeKey(signal) == "oplog-window-low";
    }
  }

  lemma ReportedFallsOff(polls: seq<Poll>, host: string)
    requires polls != [] && "falling-off:" + host in Active(polls)
    ensures var poll := polls[|polls| - 1]; ReadsOplog(poll) && HostFallsOff(poll, host)
  {
    var poll, seen := polls[|polls| - 1], LastSeen(polls);
    var signal :| signal in SignalsAt(polls) && DedupeKey(signal) == "falling-off:" + host;
    KeysIdentifyIncidents(signal, FallingOffOplog(host, 0, 0));
    SignalsMean(signal, poll.window, SizeBounded(poll), PrimaryOptime(poll.rows), seen);
    var primary := PrimaryOptime(poll.rows);
    var m :| m in seen && !m.isSelf && m.healthy && m.host == host && m.state == "SECONDARY"
             && m.optime.Some? && m.optime.value < primary.value
             && signal.lag == primary.value - m.optime.value && 4 * signal.lag >= 3 * signal.window;
    var i :| 0 <= i < |seen| && seen[i] == m;
    if poll.rows != [] {
      ObservedRow(SinceAfter(polls[..|polls| - 1]), poll.rows, poll.now, if i < |poll.rows| then i else 0);
    }
    assert poll.rows[i] in poll.rows;
    PrimaryOptimeIsTheFirstPrimarys(poll.rows);
    var k :| FirstPrimary(poll.rows, k) && poll.rows[k].optime == primary;
    assert RowFallsOff(poll.rows[i], poll.window.value, poll.rows[k]);
  }

  lemma FallingOffIsReported(polls: seq<Poll>, row: Row, k: int)
    requires polls != [] && row in polls[|polls| - 1].rows && ReadsOplog(polls[|polls| - 1])
    requires FirstPrimary(polls[|polls| - 1].rows, k)
    requires RowFallsOff(row, polls[|polls| - 1].window.value, polls[|polls| - 1].rows[k])
    ensures "falling-off:" + row.host in Active(polls)
  {
    var poll, seen := polls[|polls| - 1], LastSeen(polls);
    var primary := PrimaryOptime(poll.rows);
    PrimaryOptimeIsTheFirstPrimarys(poll.rows);
    var i :| 0 <= i < |poll.rows| && poll.rows[i] == row;
    ObservedRow(SinceAfter(polls[..|polls| - 1]), poll.rows, poll.now, i);
    var signal := FallingOffOplog(row.host, primary.value - row.optime.value, poll.window.value);
    assert seen[i] in seen;
    SignalsMean(signal, poll.window, SizeBounded(poll), primary, seen);
    assert signal in SignalsAt(polls) && DedupeKey(signal) == "falling-off:" + row.host;
  }

  /** And a host's falling-off incident exactly if it could, and a row of that host lags
      three quarters of the window behind the first primary. */
  lemma FallingOffExactlyWhenRead(polls: seq<Poll>, host: string)
    requires polls != []
    ensures var poll := polls[|polls| - 1];
            "falling-off:" + host in Active(polls) <==> ReadsOplog(poll) && HostFallsOff(poll, host)
  {
    var poll := polls[|polls| - 1];
    if "falling-off:" + host in Active(polls) {
      ReportedFallsOff(polls, host);
    }
    if ReadsOplog(poll) && HostFallsOff(poll, host) {
      var row, k :| row in poll.rows && FirstPrimary(poll.rows, k) && row.host == host
                    && RowFallsOff(row, poll.window.value, poll.rows[k]);
      FallingOffIsReported(polls, row, k);
    }
  }

  // ---------------------------------------------------------------- one incident, one report?

  /** Without a gap there is one run, and one run from end to end has no gap. */
  lemma {:induction false} OneRunIffNoGap(trace: seq<bool>)
    requires trace != [] && trace[0] && trace[|trace| - 1]
    ensures |RunStarts(trace)| == 1 <==> forall k | 0 <= k < |trace| :: trace[k]
  {
    assert StartsARun(trace, 0) && 0 in RunStarts(trace);
    if forall k | 0 <= k < |trace| :: trace[k] {
      assert RunStarts(trace) == {0};
    } else {
      var gap :| 0 <= gap < |trace| && !trace[gap];
      var start := NextStart(trace, gap);
      var others := RunStarts(trace) - {0};
      assert start in others && |others| == |RunStarts(trace)| - 1;
    }
  }

  /** After a gap, with the last poll active, another run begins. */
  lemma NextStart(trace: seq<bool>, gap: int) returns (start: int)
    requires 0 <= gap < |trace| && !trace[gap] && trace[|trace| - 1]
    ensures gap < start && StartsARun(trace, start) && start in RunStarts(trace)
    decreases |trace| - gap
  {
    if trace[gap + 1] {
      start := gap + 1;
    } else {
      start := NextStart(trace, gap + 1);
    }
  }

  /** The condition holds at every poll that can see it. */
  predicate StaysLow(polls: seq<Poll>) {
    forall k | 0 <= k < |polls| :: ReadsOplog(polls[k]) ==> WindowIsLow(polls[k])
  }

  predicate StaysBehind(polls: seq<Poll>, host: string) {
    forall k | 0 <= k < |polls| :: ReadsOplog(polls[k]) ==> HostFallsOff(polls[k], host)
  }

  /** An incident that goes on from its first poll to its last is sent once if and only
      if every poll between could read a size-bounded oplog: each poll that cannot ends
      it, and the next one that can reports it again. */
  lemma SentOnceIffAlwaysRead(polls: seq<Poll>, host: string)
    requires polls != [] && ReadsOplog(polls[0]) && ReadsOplog(polls[|polls| - 1])
    ensures StaysLow(polls) ==>
              (|RunStarts(ActiveTrace("oplog-window-low", polls))| == 1 <==> forall k | 0 <= k < |polls| :: ReadsOplog(polls[k]))
    ensures StaysBehind(polls, host) ==>
              (|RunStarts(ActiveTrace("falling-off:" + host, polls))| == 1 <==> forall k | 0 <= k < |polls| :: ReadsOplog(polls[k]))
  {
    if StaysLow(polls) {
      var trace := ActiveTrace("oplog-window-low", polls);
      forall k | 0 <= k < |polls| ensures trace[k] == ReadsOplog(polls[k]) {
        LowExactlyWhenRead(polls[..k + 1]);
      }
      OneRunIffNoGap(trace);
    }
    if StaysBehind(polls, host) {
      var trace := ActiveTrace("falling-off:" + host, polls);
      forall k | 0 <= k < |polls| ensures trace[k] == ReadsOplog(polls[k]) {
        FallingOffExactlyWhenRead(polls[..k + 1], host);
      }
      OneRunIffNoGap(trace);
    }
  }

  /** One low window, a poll in the middle that could not read it: reported twice. */
  lemma AnUnreadPollReportsTwice(now: nat)
    ensures var low, unread := Poll(now, [], Some(60), Some(1.0)), Poll(now, [], None, Some(1.0));
            StaysLow([low, unread, low])
            && RunStarts(ActiveTrace("oplog-window-low", [low, unread, low])) == {0, 2}
  {
    var low, unread := Poll(now, [], Some(60), Some(1.0)), Poll(now, [], None, Some(1.0));
    var polls := [low, unread, low];
    var trace := ActiveTrace("oplog-window-low", polls);
    LowExactlyWhenRead(polls[..1]);
    LowExactlyWhenRead(polls[..2]);
    LowExactlyWhenRead(polls[..3]);
    assert trace == [true, false, true];
    assert StartsARun(trace, 0) && !StartsARun(trace, 1) && StartsARun(trace, 2);
  }
}
