/** When the pooled mongod client is rebuilt: a timed backoff automaton. */
module RecoveryPolicies {
  import opened Wrappers

  /** Instants and durations are counted in milliseconds. */
  const SECOND: int := 1000
  const REBUILD_BACKOFF_MIN: int := 30 * SECOND
  const REBUILD_BACKOFF_MAX: int := 300 * SECOND
  const TRANSPORT_FAILURES_BEFORE_REBUILD: nat := 5

  datatype Failure = Auth | Transport | ServerVerdict

  datatype Pending = Pending(kind: Failure, until: int)
  datatype Policy = Policy(transportFailures: nat, backoff: int, pending: Option<Pending>)

  function Fresh(): Policy {
    Policy(0, REBUILD_BACKOFF_MIN, None)
  }

  function Proven(p: Policy, authenticated: bool): Policy {
    var pending := if p.pending.Some? && (p.pending.value.kind.Transport? || authenticated) then None else p.pending;
    Policy(0, if pending.None? then REBUILD_BACKOFF_MIN else p.backoff, pending)
  }

  function Doubled(backoff: int): int {
    if backoff * 2 < REBUILD_BACKOFF_MAX then backoff * 2 else REBUILD_BACKOFF_MAX
  }

  function Failed(p: Policy, failure: Failure, authenticated: bool, now: int): Policy {
    if failure.ServerVerdict? then Proven(p, authenticated)
    else
      var counted := if failure.Transport? then p.transportFailures + 1 else p.transportFailures;
      if !Rebuilds(p, failure, now) then p.(transportFailures := counted)
      else
        var backoff := if p.pending.Some? && p.pending.value.kind == failure then Doubled(p.backoff) else REBUILD_BACKOFF_MIN;
        Policy(0, backoff, Some(Pending(failure, now + backoff)))
  }

  predicate Rebuilds(p: Policy, failure: Failure, now: int) {
    && !failure.ServerVerdict?
    && (failure.Transport? ==> p.transportFailures + 1 >= TRANSPORT_FAILURES_BEFORE_REBUILD)
    && !(p.pending.Some? && p.pending.value.kind == failure && now < p.pending.value.until)
  }

  class RecoveryPolicy {
    var transportFailures: nat
    var backoff: int
    var pending: Option<Pending>

    constructor ()
      ensures View() == Fresh()
    {
      transportFailures, backoff, pending := 0, REBUILD_BACKOFF_MIN, None;
    }

    function View(): Policy
      reads this
    {
      Policy(transportFailures, backoff, pending)
    }

    method OnSuccess(authenticated: bool)
      modifies this
      ensures View() == Proven(old(View()), authenticated)
    {
      transportFailures := 0;
      if pending.Some? && (pending.value.kind.Transport? || authenticated) {
        pending := None;
      }
      if pending.None? {
        backoff := REBUILD_BACKOFF_MIN;
      }
    }

    method OnFailure(failure: Failure, authenticated: bool, now: int) returns (rebuild: bool)
      modifies this
      ensures rebuild == Rebuilds(old(View()), failure, now)
      ensures View() == Failed(old(View()), failure, authenticated, now)
    {
      match failure {
        case ServerVerdict =>
          OnSuccess(authenticated);
          return false;
        case Transport =>
          transportFailures := transportFailures + 1;
          if transportFailures < TRANSPORT_FAILURES_BEFORE_REBUILD {
            return false;
          }
        case Auth =>
      }
      if pending.Some? && pending.value.kind == failure {
        if now < pending.value.until {
          return false;
        }
        backoff := Doubled(backoff);
      } else {
        backoff := REBUILD_BACKOFF_MIN;
      }
      pending := Some(Pending(failure, now + backoff));
      transportFailures := 0;
      return true;
    }
  }

  // ---------------------------------------------------------------- traces

  datatype Event = Worked(authenticated: bool, at: int) | Broke(failure: Failure, authenticated: bool, at: int)
  {
    /** Any answer of the server proves the transport; one to a command that needed
        a login proves the credential. */
    predicate IsProof() {
      Worked? || failure.ServerVerdict?
    }

    predicate IsAuthenticatedProof() {
      IsProof() && authenticated
    }
  }

  function Step(p: Policy, e: Event): Policy {
    match e
    case Worked(authenticated, _) => Proven(p, authenticated)
    case Broke(failure, authenticated, at) => Failed(p, failure, authenticated, at)
  }

  function After(events: seq<Event>): Policy {
    if events == [] then Fresh() else Step(After(events[..|events| - 1]), events[|events| - 1])
  }

  predicate RebuildAt(events: seq<Event>, k: int)
    requires 0 <= k < |events|
  {
    events[k].Broke? && Rebuilds(After(events[..k]), events[k].failure, events[k].at)
  }

  predicate RebuildOf(events: seq<Event>, k: int, kind: Failure)
    requires 0 <= k < |events|
  {
    RebuildAt(events, k) && events[k].failure == kind
  }

  lemma PrefixAgrees(events: seq<Event>, n: nat)
    requires n <= |events|
    ensures forall k | 0 <= k < n :: RebuildAt(events[..n], k) == RebuildAt(events, k)
    ensures forall k, kind | 0 <= k < n :: RebuildOf(events[..n], k, kind) == RebuildOf(events, k, kind)
  {
    assert forall k | 0 <= k < n :: events[..n][..k] == events[..k] && events[..n][k] == events[k];
  }

  /** The backoff never leaves its range, and rests at its minimum whenever nothing
      is pending. */
  lemma {:induction false} BackoffStaysInRange(events: seq<Event>)
    ensures var p := After(events);
            && 30_000 <= p.backoff <= 300_000
            && (p.pending.None? ==> p.backoff == 30_000)
            && (p.pending.Some? ==> !p.pending.value.kind.ServerVerdict?)
  {
    if events != [] {
      BackoffStaysInRange(events[..|events| - 1]);
    }
  }

  /** Rebuild j is the last one and, for its kind, nothing since proved that it helped. */
  predicate Unproven(events: seq<Event>, j: int) {
    && 0 <= j < |events| && RebuildAt(events, j)
    && (forall m | j < m < |events| :: !RebuildAt(events, m))
    && (forall m | j < m < |events| :: !events[m].IsAuthenticatedProof())
    && (events[j].failure.Transport? ==> forall m | j < m < |events| :: !events[m].IsProof())
  }

  lemma UnprovenShorter(events: seq<Event>, j: int)
    requires events != [] && j < |events| - 1
    ensures var n := |events| - 1;
            Unproven(events, j) <==>
              && Unproven(events[..n], j) && !RebuildAt(events, n) && !events[n].IsAuthenticatedProof()
              && (events[j].failure.Transport? ==> !events[n].IsProof())
  {
    var n := |events| - 1;
    PrefixAgrees(events, n);
    assert forall m | 0 <= m < n :: events[..n][m] == events[m];
  }

  /** What the pending window stands for. */
  predicate Stands(events: seq<Event>, j: int, pending: Pending, backoff: int) {
    Unproven(events, j) && events[j].failure == pending.kind && pending.until == events[j].at + backoff
  }

  lemma PendingOutlives(events: seq<Event>)
    requires events != [] && !RebuildAt(events, |events| - 1) && After(events).pending.Some?
    ensures var n := |events| - 1;
            After(events[..n]).pending == After(events).pending && After(events[..n]).backoff == After(events).backoff
    ensures !events[|events| - 1].IsAuthenticatedProof()
    ensures After(events).pending.value.kind.Transport? ==> !events[|events| - 1].IsProof()
  {
    BackoffStaysInRange(events[..|events| - 1]);
  }

  lemma {:induction false} PendingStandsFor(events: seq<Event>) returns (j: int)
    requires After(events).pending.Some?
    ensures Stands(events, j, After(events).pending.value, After(events).backoff)
  {
    var n := |events| - 1;
    if RebuildAt(events, n) {
      j := n;
    } else {
      PendingOutlives(events);
      j := PendingStandsFor(events[..n]);
      UnprovenShorter(events, j);
    }
  }

  lemma {:induction false} UnprovenIsPending(events: seq<Event>, j: int)
    requires Unproven(events, j)
    ensures After(events).pending.Some? && After(events).pending.value.kind == events[j].failure
  {
    var n := |events| - 1;
    if j < n {
      UnprovenShorter(events, j);
      UnprovenIsPending(events[..n], j);
    }
  }

  lemma PendingIsTheUnprovenRebuild(events: seq<Event>)
    ensures var pending := After(events).pending;
            && (pending.Some? ==> exists j :: Unproven(events, j) && events[j].failure == pending.value.kind
                                              && pending.value.until == events[j].at + After(events).backoff)
            && (forall j | Unproven(events, j) :: pending.Some? && events[j].failure == pending.value.kind)
  {
    forall j | Unproven(events, j) ensures After(events).pending.Some? && events[j].failure == After(events).pending.value.kind {
      UnprovenIsPending(events, j);
    }
    if After(events).pending.Some? {
      var j := PendingStandsFor(events);
    }
  }

  /** An authentication failure is held back exactly while an authentication rebuild
      is the last rebuild, no authenticated answer came since, and its window is
      still open. */
  lemma AuthHeldBackIff(events: seq<Event>, at: int)
    ensures !Rebuilds(After(events), Auth, at) <==>
              exists j :: Unproven(events, j) && events[j].failure.Auth? && at < events[j].at + After(events).backoff
  {
    PendingIsTheUnprovenRebuild(events);
    if j :| Unproven(events, j) && events[j].failure.Auth? && at < events[j].at + After(events).backoff {
      var pending := After(events).pending.value;
      var i :| Unproven(events, i) && events[i].failure == pending.kind && pending.until == events[i].at + After(events).backoff;
      assert i == j;
    }
  }

  /** The first authentication failure since the credential last worked (or since
      the start) rebuilds at once. */
  lemma {:induction false} FirstAuthFailureRebuildsAtOnce(events: seq<Event>, at: int)
    requires forall j | 0 <= j < |events| && events[j].Broke? && events[j].failure.Auth? ::
               exists m :: j < m < |events| && events[m].IsAuthenticatedProof()
    ensures Rebuilds(After(events), Auth, at)
  {
    AuthHeldBackIff(events, at);
  }

  // ---------------------------------------------------------------- transport rebuilds

  function TransportFailures(events: seq<Event>): nat {
    if events == [] then 0
    else
      var last := events[|events| - 1];
      TransportFailures(events[..|events| - 1]) + (if last.Broke? && last.failure.Transport? then 1 else 0)
  }

  /** The counter is the number of transport failures since some point after which
      nothing was proven and nothing rebuilt. */
  lemma {:induction false} CounterCountsTheRun(events: seq<Event>) returns (s: nat)
    ensures s <= |events|
    ensures forall m | s <= m < |events| :: !events[m].IsProof() && !RebuildAt(events, m)
    ensures s == 0 || events[s - 1].IsProof() || RebuildAt(events, s - 1)
    ensures After(events).transportFailures == TransportFailures(events[s..])
  {
    s := 0;
    if events != [] {
      var n := |events| - 1;
      PrefixAgrees(events, n);
      if events[n].IsProof() || RebuildAt(events, n) {
        s := n + 1;
      } else {
        s := CounterCountsTheRun(events[..n]);
        assert events[s..][..n - s] == events[..n][s..];
      }
    }
  }

  /** A transport failure rebuilds exactly if it is at least the fifth since the last
      proof or rebuild, and no transport rebuild is the last one, unproven, with its
      window still open. */
  lemma TransportRebuildsIff(events: seq<Event>, at: int) returns (s: nat)
    ensures s <= |events|
    ensures forall m | s <= m < |events| :: !events[m].IsProof() && !RebuildAt(events, m)
    ensures s == 0 || events[s - 1].IsProof() || RebuildAt(events, s - 1)
    ensures Rebuilds(After(events), Transport, at) <==>
              && TransportFailures(events[s..]) >= 4
              && !exists j :: Unproven(events, j) && events[j].failure.Transport? && at < events[j].at + After(events).backoff
  {
    s := CounterCountsTheRun(events);
    PendingIsTheUnprovenRebuild(events);
    if j :| Unproven(events, j) && events[j].failure.Transport? && at < events[j].at + After(events).backoff {
      var pending := After(events).pending.value;
      var i :| Unproven(events, i) && events[i].failure == pending.kind && pending.until == events[i].at + After(events).backoff;
      assert i == j;
    }
  }

  /** A client that only times out, with nothing else ever happening, is rebuilt on the
      fifth failure. */
  lemma TheFifthTimeoutRebuilds(lost: seq<Event>)
    requires |lost| == 5 && forall k | 0 <= k < 5 :: lost[k].Broke? && lost[k].failure.Transport?
    ensures RebuildOf(lost, 4, Transport) && forall k | 0 <= k < 4 :: !RebuildAt(lost, k)
  {
    assert lost[..1][..0] == [] && lost[..2][..1] == lost[..1] && lost[..3][..2] == lost[..2] && lost[..4][..3] == lost[..3];
    assert After(lost[..1]) == Policy(1, REBUILD_BACKOFF_MIN, None) && After(lost[..2]) == Policy(2, REBUILD_BACKOFF_MIN, None);
    assert After(lost[..3]) == Policy(3, REBUILD_BACKOFF_MIN, None) && After(lost[..4]) == Policy(4, REBUILD_BACKOFF_MIN, None);
  }

  /** A transport rebuild takes at least five transport failures in a row of events
      without any proof and without any rebuild. */
  lemma TransportRebuildNeedsFive(events: seq<Event>, k: nat) returns (s: nat)
    requires k < |events| && RebuildOf(events, k, Transport)
    ensures s <= k
    ensures forall m | s <= m < k :: !events[m].IsProof() && !RebuildAt(events, m)
    ensures TransportFailures(events[s..k + 1]) >= 5
  {
    s := CounterCountsTheRun(events[..k]);
    PrefixAgrees(events, k);
    OneMoreTransportFailure(events, s, k);
    assert forall m | s <= m < k :: events[..k][m] == events[m];
  }

  lemma OneMoreTransportFailure(events: seq<Event>, s: nat, k: nat)
    requires s <= k < |events| && events[k].Broke? && events[k].failure.Transport?
    ensures TransportFailures(events[s..k + 1]) == TransportFailures(events[..k][s..]) + 1
  {
    var run := events[s..k + 1];
    assert run[..|run| - 1] == events[..k][s..] && run[|run| - 1] == events[k];
  }

  // ---------------------------------------------------------------- the exponential backoff

  function Pow2(n: nat): nat {
    if n == 0 then 1 else 2 * Pow2(n - 1)
  }

  /** The wait the n-th rebuild in a row imposes on the next one. */
  function Window(n: nat): int
    requires n >= 1
  {
    if REBUILD_BACKOFF_MIN * Pow2(n - 1) < REBUILD_BACKOFF_MAX then REBUILD_BACKOFF_MIN * Pow2(n - 1) else REBUILD_BACKOFF_MAX
  }

  /** Time that must pass between the first and the n-th rebuild in a row. */
  function Elapsed(n: nat): int
    requires n >= 1
  {
    if n == 1 then 0 else Elapsed(n - 1) + Window(n - 1)
  }

  lemma {:induction false} WindowDoubles(n: nat)
    requires n >= 1
    ensures Window(n + 1) == Doubled(Window(n))
    ensures n >= 5 ==> Window(n) == REBUILD_BACKOFF_MAX
  {
    if n >= 5 {
      PowGrows(n - 1);
    }
  }

  lemma {:induction false} PowGrows(n: nat)
    requires n >= 4
    ensures Pow2(n) >= 16
  {
    if n == 4 {
      assert Pow2(1) == 2 && Pow2(2) == 4 && Pow2(3) == 8;
    } else {
      PowGrows(n - 1);
    }
  }

  /** The bound in closed form: 30 s doubling up to the fifth rebuild, then one
      every 300 s. */
  lemma {:induction false} ElapsedClosedForm(n: nat)
    requires n >= 1
    ensures n <= 5 ==> Elapsed(n) == 30_000 * (Pow2(n - 1) - 1)
    ensures n >= 5 ==> Elapsed(n) == 450_000 + 300_000 * (n - 5)
  {
    assert Pow2(1) == 2 && Pow2(2) == 4 && Pow2(3) == 8 && Pow2(4) == 16;
    if n > 1 {
      ElapsedClosedForm(n - 1);
      WindowDoubles(n - 1);
    }
  }

  /** Rebuilds of one kind and the events at which the first and the last happened. */
  function RebuildCount(events: seq<Event>, start: nat, kind: Failure): nat
    requires start <= |events|
    decreases |events|
  {
    if |events| == start then 0
    else RebuildCount(events[..|events| - 1], start, kind) + (if RebuildOf(events, |events| - 1, kind) then 1 else 0)
  }

  predicate FirstRebuild(events: seq<Event>, start: nat, k: int, kind: Failure) {
    start <= k < |events| && RebuildOf(events, k, kind) && forall m | start <= m < k :: !RebuildOf(events, m, kind)
  }

  predicate LastRebuild(events: seq<Event>, start: nat, k: int, kind: Failure) {
    start <= k < |events| && RebuildOf(events, k, kind) && forall m | k < m < |events| :: !RebuildOf(events, m, kind)
  }

  predicate Proves(e: Event, kind: Failure) {
    if kind.Transport? then e.IsProof() else e.IsAuthenticatedProof()
  }

  /** From `start` on, nothing proves that rebuilds of this kind help, and none of the
      other kind happens. */
  predicate OnlyRefusals(events: seq<Event>, start: nat, kind: Failure) {
    && start <= |events| && !kind.ServerVerdict?
    && (forall m | start <= m < |events| :: !Proves(events[m], kind))
    && (forall m | start <= m < |events| :: RebuildAt(events, m) ==> RebuildOf(events, m, kind))
  }

  /** While a rebuild is pending, nothing but another one of its kind moves the window. */
  lemma PendingStep(p: Policy, e: Event, kind: Failure)
    requires p.pending.Some? && p.pending.value.kind == kind && !kind.ServerVerdict? && !Proves(e, kind)
    requires e.Broke? && e.failure != kind ==> !Rebuilds(p, e.failure, e.at)
    ensures var after := Step(p, e);
            if e.Broke? && e.failure == kind && Rebuilds(p, kind, e.at)
            then e.at >= p.pending.value.until && after.backoff == Doubled(p.backoff)
                 && after.pending == Some(Pending(kind, e.at + Doubled(p.backoff)))
            else after.backoff == p.backoff && after.pending == p.pending
  {}

  lemma NotPendingStep(p: Policy, e: Event, kind: Failure)
    requires NotPending(p, kind) && !kind.ServerVerdict?
    requires e.Broke? && e.failure != kind ==> !Rebuilds(p, e.failure, e.at)
    ensures var after := Step(p, e);
            if e.Broke? && e.failure == kind && Rebuilds(p, kind, e.at)
            then after.backoff == REBUILD_BACKOFF_MIN && after.pending == Some(Pending(kind, e.at + REBUILD_BACKOFF_MIN))
            else NotPending(after, kind)
    ensures kind.Auth? && e.Broke? && e.failure == kind ==> Rebuilds(p, kind, e.at)
  {}

  predicate NotPending(p: Policy, kind: Failure) {
    p.pending.None? || p.pending.value.kind != kind
  }

  /** The n-th rebuild in a row is the pending one, with the n-th window, no earlier
      than the windows before it allow. */
  predicate BacksOff(events: seq<Event>, start: nat, first: nat, last: nat, n: nat, kind: Failure)
    requires n >= 1
  {
    && FirstRebuild(events, start, first, kind) && LastRebuild(events, start, last, kind)
    && After(events).backoff == Window(n)
    && After(events).pending == Some(Pending(kind, events[last].at + Window(n)))
    && events[last].at >= events[first].at + Elapsed(n)
  }

  lemma OnlyRefusalsShorter(events: seq<Event>, start: nat, kind: Failure)
    requires start < |events| && OnlyRefusals(events, start, kind)
    ensures OnlyRefusals(events[..|events| - 1], start, kind)
    ensures RebuildAt(events, |events| - 1) ==> RebuildOf(events, |events| - 1, kind)
    ensures !Proves(events[|events| - 1], kind)
    ensures events[..|events| - 1][..start] == events[..start]
  {
    var n := |events| - 1;
    PrefixAgrees(events, n);
    assert forall m | 0 <= m < n :: events[..n][m] == events[m];
    assert forall m | start <= m < n :: RebuildAt(events[..n], m) == RebuildAt(events, m);
  }

  lemma TheFirstRebuild(events: seq<Event>, start: nat, kind: Failure)
    requires start < |events| && OnlyRefusals(events, start, kind)
    requires RebuildCount(events[..|events| - 1], start, kind) == 0 && NotPending(After(events[..|events| - 1]), kind)
    ensures var n := |events| - 1;
            if RebuildOf(events, n, kind) then BacksOff(events, start, n, n, 1, kind) else NotPending(After(events), kind)
  {
    var n := |events| - 1;
    OnlyRefusalsShorter(events, start, kind);
    NotPendingStep(After(events[..n]), events[n], kind);
    NoRebuild(events[..n], start, kind);
    PrefixAgrees(events, n);
    assert forall m | start <= m < n :: RebuildOf(events[..n], m, kind) == RebuildOf(events, m, kind);
  }

  lemma TheNextRebuild(events: seq<Event>, start: nat, first: nat, last: nat, count: nat, kind: Failure)
    requires start < |events| && OnlyRefusals(events, start, kind)
    requires count >= 1 && BacksOff(events[..|events| - 1], start, first, last, count, kind)
    ensures var n := |events| - 1;
            if RebuildOf(events, n, kind) then BacksOff(events, start, first, n, count + 1, kind)
            else BacksOff(events, start, first, last, count, kind)
  {
    var n := |events| - 1;
    OnlyRefusalsShorter(events, start, kind);
    PendingStep(After(events[..n]), events[n], kind);
    FirstStaysFirst(events, start, first, kind);
    if RebuildOf(events, n, kind) {
      WindowDoubles(count);
    } else {
      LastStaysLast(events, start, last, kind);
    }
  }

  /** A credential that stays refused, or a server that stays out of reach: after the
      n-th rebuild in a row the window is exactly min(30 s * 2^(n-1), 300 s), and the
      n-th rebuild came no earlier than the sum of the windows before it. */
  lemma {:induction false} RefusedCredentialBacksOff(events: seq<Event>, start: nat, kind: Failure) returns (first: nat, last: nat)
    requires OnlyRefusals(events, start, kind) && NotPending(After(events[..start]), kind)
    ensures var n := RebuildCount(events, start, kind);
            && (n == 0 ==> NotPending(After(events), kind))
            && (n >= 1 ==> BacksOff(events, start, first, last, n, kind))
  {
    first, last := 0, 0;
    if |events| == start {
      assert events[..start] == events;
    } else {
      var n := |events| - 1;
      OnlyRefusalsShorter(events, start, kind);
      first, last := RefusedCredentialBacksOff(events[..n], start, kind);
      var count := RebuildCount(events[..n], start, kind);
      if count == 0 {
        TheFirstRebuild(events, start, kind);
        first := n;
      } else {
        TheNextRebuild(events, start, first, last, count, kind);
      }
      if RebuildOf(events, n, kind) {
        last := n;
      }
    }
  }

  lemma FirstStaysFirst(events: seq<Event>, start: nat, k: nat, kind: Failure)
    requires start < |events| && FirstRebuild(events[..|events| - 1], start, k, kind)
    ensures FirstRebuild(events, start, k, kind)
  {
    PrefixAgrees(events, |events| - 1);
    assert forall m | start <= m < k :: RebuildOf(events[..|events| - 1], m, kind) == RebuildOf(events, m, kind);
  }

  lemma LastStaysLast(events: seq<Event>, start: nat, k: nat, kind: Failure)
    requires start < |events| && LastRebuild(events[..|events| - 1], start, k, kind) && !RebuildOf(events, |events| - 1, kind)
    ensures LastRebuild(events, start, k, kind)
  {
    PrefixAgrees(events, |events| - 1);
    assert forall m | k < m < |events| - 1 :: RebuildOf(events[..|events| - 1], m, kind) == RebuildOf(events, m, kind);
  }

  lemma {:induction false} NoRebuild(events: seq<Event>, start: nat, kind: Failure)
    requires start <= |events| && RebuildCount(events, start, kind) == 0
    ensures forall m | start <= m < |events| :: !RebuildOf(events, m, kind)
  {
    if start < |events| {
      var n := |events| - 1;
      NoRebuild(events[..n], start, kind);
      PrefixAgrees(events, n);
      assert forall m | start <= m < n :: RebuildOf(events[..n], m, kind) == RebuildOf(events, m, kind);
    }
  }

  /** So each rebuild waits for the window of the one before it, and one for a refused
      credential for nothing else. */
  lemma GapAfterEachRebuild(events: seq<Event>, start: nat, at: int, kind: Failure)
    requires OnlyRefusals(events, start, kind) && RebuildCount(events, start, kind) >= 1
    requires NotPending(After(events[..start]), kind)
    ensures exists last :: LastRebuild(events, start, last, kind)
              && (Rebuilds(After(events), kind, at) <==>
                    && at - events[last].at >= Window(RebuildCount(events, start, kind))
                    && (kind.Transport? ==> After(events).transportFailures >= 4))
  {
    var first, last := RefusedCredentialBacksOff(events, start, kind);
    assert LastRebuild(events, start, last, kind);
  }

  // ---------------------------------------------------------------- what resets it

  /** A rebuild of the other kind also resets the backoff: two authentication
      rebuilds may follow each other without any wait, with no command ever having
      succeeded in between. */
  lemma ATransportRebuildResetsTheBackoff(t: int)
    ensures var refused, lost := Broke(Auth, true, t), Broke(Transport, true, t);
            var events := [refused, lost, lost, lost, lost, lost, refused];
            && RebuildOf(events, 0, Auth) && RebuildOf(events, 5, Transport) && RebuildOf(events, 6, Auth)
            && forall k | 0 <= k < |events| :: !events[k].IsProof() && events[k].at == t
  {
    var refused, lost := Broke(Auth, true, t), Broke(Transport, true, t);
    var events := [refused, lost, lost, lost, lost, lost, refused];
    var held := Some(Pending(Auth, t + REBUILD_BACKOFF_MIN));
    assert events[..1][..0] == [] && events[..2][..1] == events[..1] && events[..3][..2] == events[..2];
    assert events[..4][..3] == events[..3] && events[..5][..4] == events[..4] && events[..6][..5] == events[..5];
    assert After(events[..1]) == Policy(0, REBUILD_BACKOFF_MIN, held);
    assert After(events[..2]) == Policy(1, REBUILD_BACKOFF_MIN, held);
    assert After(events[..3]) == Policy(2, REBUILD_BACKOFF_MIN, held);
    assert After(events[..4]) == Policy(3, REBUILD_BACKOFF_MIN, held);
    assert After(events[..5]) == Policy(4, REBUILD_BACKOFF_MIN, held);
    assert After(events[..6]) == Policy(0, REBUILD_BACKOFF_MIN, Some(Pending(Transport, t + REBUILD_BACKOFF_MIN)));
  }

  /** Without one, two authentication rebuilds with no authenticated answer between
      them are at least the minimal window apart. */
  lemma OnlyThatOrAnAnswerShortensTheWait(events: seq<Event>, j: nat, k: nat)
    requires j < k < |events| && RebuildOf(events, j, Auth) && RebuildOf(events, k, Auth)
    requires forall m | j < m < k :: !events[m].IsAuthenticatedProof() && !RebuildAt(events, m)
    ensures events[k].at - events[j].at >= 30_000
  {
    var before := events[..k];
    PrefixAgrees(events, k);
    assert forall m | 0 <= m < k :: before[m] == events[m];
    assert Unproven(before, j);
    BackoffStaysInRange(before);
    AuthHeldBackIff(before, events[k].at);
  }
}
