/** One prune round on the primary: the member it removes, if any, and the proof that
    the member was unreachable and its name gone in every status for the whole dwell. */
module Prune {
  import opened GoneTrackers
  import opened Names
  import opened ReplicaConfig
  import Text
  import opened Wrappers

  /** What a round finds out about one row of the status, were it to ask: the verdict on
      the name, the config that is read, and whether the edited one is taken. */
  datatype Found = Found(row: RsMember, verdict: NameVerdict, config: Option<Config>, accepted: bool)

  /** A row a round has come past, when it did, and whether it removed that member. */
  datatype Seen = Seen(row: RsMember, verdict: NameVerdict, at: int, removed: bool)
  {
    predicate Of(host: string) {
      row.host == host && !row.isSelf
    }

    predicate IsGone() {
      !row.healthy && verdict.Gone? && !removed
    }
  }

  /** The rows of a round up to the one at which it ended. */
  function RowsOf(found: seq<Found>, now: int): (rows: seq<Seen>)
    ensures |rows| == |found|
  {
    seq(|found|, i requires 0 <= i < |found| => Seen(found[i].row, found[i].verdict, now, false))
  }

  /** The tracker after all rows come past. */
  function Clocks(rows: seq<Seen>): map<string, int> {
    if rows == [] then map[]
    else
      var before, last := Clocks(rows[..|rows| - 1]), rows[|rows| - 1];
      if last.row.isSelf then before
      else if last.row.healthy || last.removed then before - {last.row.host}
      else ObserveName(before, last.row.host, last.verdict, last.at)
  }

  // ---------------------------------------------------------------- what the clocks say

  /** From row `s` on, every row of the host was unreachable, its name gone. */
  predicate GoneThrough(rows: seq<Seen>, host: string, s: int) {
    && 0 <= s < |rows| && rows[s].Of(host)
    && forall k | s <= k < |rows| && rows[k].Of(host) :: rows[k].IsGone()
  }

  predicate RowsInOrder(rows: seq<Seen>) {
    forall i, j | 0 <= i <= j < |rows| :: rows[i].at <= rows[j].at
  }

  lemma GoneThroughShorter(rows: seq<Seen>, host: string, s: int)
    requires rows != [] && s < |rows| - 1
    ensures GoneThrough(rows, host, s) <==>
              GoneThrough(rows[..|rows| - 1], host, s) && (rows[|rows| - 1].Of(host) ==> rows[|rows| - 1].IsGone())
  {
  }

  /** The clock of a host stands at the first row of its unbroken run of gone rows. */
  lemma {:induction false} ClockIsTheGoneRun(rows: seq<Seen>, host: string)
    requires RowsInOrder(rows)
    ensures host in Clocks(rows) <==> exists s :: GoneThrough(rows, host, s)
    ensures host in Clocks(rows) ==> exists s :: GoneThrough(rows, host, s) && rows[s].at == Clocks(rows)[host]
    ensures forall s | GoneThrough(rows, host, s) :: host in Clocks(rows) && Clocks(rows)[host] <= rows[s].at
  {
    if rows != [] {
      var n := |rows| - 1;
      var before, last := rows[..n], rows[n];
      ClockIsTheGoneRun(before, host);
      forall s | GoneThrough(rows, host, s)
        ensures host in Clocks(rows) && Clocks(rows)[host] <= rows[s].at
      {
        if s < n {
          GoneThroughShorter(rows, host, s);
          assert before[s] == rows[s];
        } else if host in Clocks(before) {
          var r :| GoneThrough(before, host, r) && before[r].at == Clocks(before)[host];
          assert rows[r].at <= rows[n].at;
        }
      }
      if host in Clocks(rows) {
        if host in Clocks(before) {
          var s :| GoneThrough(before, host, s) && before[s].at == Clocks(before)[host];
          GoneThroughShorter(rows, host, s);
          assert GoneThrough(rows, host, s) && rows[s].at == Clocks(rows)[host];
        } else {
          assert GoneThrough(rows, host, n) && rows[n].at == Clocks(rows)[host];
        }
      }
    }
  }

  /** Unreachable at every row since one at least the dwell ago, and gone at each. */
  predicate GoneForTheDwell(rows: seq<Seen>, host: string, now: int, dwell: nat) {
    exists s | 0 <= s < |rows| :: GoneThrough(rows, host, s) && now - rows[s].at >= dwell
  }

  lemma WaivedExactlyWhenGoneForTheDwell(rows: seq<Seen>, host: string, now: int, dwell: nat)
    requires RowsInOrder(rows)
    ensures WaivedIn(Clocks(rows), host, now, dwell) <==> GoneForTheDwell(rows, host, now, dwell)
  {
    ClockIsTheGoneRun(rows, host);
  }

  // ---------------------------------------------------------------- the round

  /** Row `k` is another member's, unreachable now and gone for the dwell. */
  predicate Due(rows: seq<Seen>, found: seq<Found>, now: int, dwell: nat, k: int)
    requires 0 <= k < |found|
  {
    && !found[k].row.isSelf && !found[k].row.healthy
    && GoneForTheDwell(rows + RowsOf(found[..k + 1], now), found[k].row.host, now, dwell)
  }

  /** The config without member `k` can be read and built, and is taken. */
  predicate Removable(found: Found) {
    found.config.Some? && ConfigWithMemberRemoved(found.config.value, found.row.host).Ok? && found.accepted
  }

  /** The round goes on past row `k`: it is not due, or its edit is refused. */
  predicate Passes(rows: seq<Seen>, found: seq<Found>, now: int, dwell: nat, k: int)
    requires 0 <= k < |found|
  {
    Due(rows, found, now, dwell, k) ==> found[k].config.Some? && !Removable(found[k])
  }

  /** A round from `start` to `rows`: it came past `n` rows and ended at the end of the
      status, or at a due row with no config to read, or by removing the last one's member. */
  predicate Came(start: seq<Seen>, rows: seq<Seen>, found: seq<Found>, now: int, dwell: nat, n: int,
                 removed: Option<(string, Config)>)
  {
    && 0 <= n <= |found| && (forall k | 0 <= k < n - 1 :: Passes(start, found, now, dwell, k))
    && (removed.None? ==>
          && rows == start + RowsOf(found[..n], now)
          && (n < |found| ==> n > 0 && !Passes(start, found, now, dwell, n - 1))
          && (n > 0 && !Passes(start, found, now, dwell, n - 1) ==> found[n - 1].config.None?))
    && (removed.Some? ==>
          && n > 0 && |start| + n > 0 && rows == Ended(start + RowsOf(found[..n], now), true)
          && Due(start, found, now, dwell, n - 1) && found[n - 1].accepted && found[n - 1].config.Some?
          && removed.value.0 == found[n - 1].row.host
          && Ok(removed.value.1) == ConfigWithMemberRemoved(found[n - 1].config.value, found[n - 1].row.host))
  }

  lemma CameToTheEnd(start: seq<Seen>, found: seq<Found>, now: int, dwell: nat)
    requires forall j | 0 <= j < |found| :: Passes(start, found, now, dwell, j)
    ensures Came(start, start + RowsOf(found[..|found|], now), found, now, dwell, |found|, None)
    ensures var rows := start + RowsOf(found[..|found|], now); start <= rows && |rows| - |start| == |found|
  {
  }

  lemma CameToAnUnreadConfig(start: seq<Seen>, found: seq<Found>, now: int, dwell: nat, k: nat)
    requires k < |found| && Due(start, found, now, dwell, k) && found[k].config.None?
    requires forall j | 0 <= j < k :: Passes(start, found, now, dwell, j)
    ensures Came(start, start + RowsOf(found[..k + 1], now), found, now, dwell, k + 1, None)
    ensures var rows := start + RowsOf(found[..k + 1], now); start <= rows && |rows| - |start| == k + 1
  {
  }

  lemma CameToARemoval(start: seq<Seen>, found: seq<Found>, now: int, dwell: nat, k: nat, next: Config)
    requires k < |found| && Due(start, found, now, dwell, k) && found[k].accepted && found[k].config.Some?
    requires ConfigWithMemberRemoved(found[k].config.value, found[k].row.host) == Ok(next)
    requires forall j | 0 <= j < k :: Passes(start, found, now, dwell, j)
    ensures Came(start, Ended(start + RowsOf(found[..k + 1], now), true), found, now, dwell, k + 1, Some((found[k].row.host, next)))
    ensures var rows := Ended(start + RowsOf(found[..k + 1], now), true); start <= rows && |rows| - |start| == k + 1
  {
    var rows := start + RowsOf(found[..k + 1], now);
    assert Ended(rows, true)[..|start|] == start;
  }

  /** The rows so far, the last one's member removed or not. */
  function Ended(rows: seq<Seen>, removed: bool): (ended: seq<Seen>)
    requires rows != []
    ensures |ended| == |rows|
  {
    rows[|rows| - 1 := rows[|rows| - 1].(removed := removed)]
  }

  /** Row `k` is the last one of its host, and healthy. */
  predicate LastRowHealthy(found: seq<Found>, k: int) {
    && 0 <= k < |found| && !found[k].row.isSelf && found[k].row.healthy
    && forall j | k < j < |found| && !found[j].row.isSelf :: found[j].row.host != found[k].row.host
  }

  lemma OneRowMore(start: seq<Seen>, found: seq<Found>, k: nat, now: int)
    requires k < |found| && RowsInOrder(start + RowsOf(found[..k], now))
    requires forall i | 0 <= i < |start + RowsOf(found[..k], now)| :: (start + RowsOf(found[..k], now))[i].at <= now
    ensures var before, last := start + RowsOf(found[..k], now), Seen(found[k].row, found[k].verdict, now, false);
            && start + RowsOf(found[..k + 1], now) == before + [last] && RowsInOrder(before + [last])
            && (forall i | 0 <= i < |before + [last]| :: (before + [last])[i].at <= now)
            && Clocks(before + [last]) == (if last.row.isSelf then Clocks(before)
                                           else if last.row.healthy then Clocks(before) - {last.row.host}
                                           else ObserveName(Clocks(before), last.row.host, last.verdict, now))
  {
    var before, last := start + RowsOf(found[..k], now), Seen(found[k].row, found[k].verdict, now, false);
    assert RowsOf(found[..k + 1], now) == RowsOf(found[..k], now) + [last];
    assert (before + [last])[..|before|] == before;
  }

  class Pruner {
    const tracker: GoneTracker
    ghost var rows: seq<Seen>

    constructor ()
      ensures Valid() && fresh(tracker) && rows == []
    {
      tracker := new GoneTracker();
      rows := [];
    }

    /** The tracker holds what the rows so far amount to. */
    ghost predicate Valid()
      reads this, tracker
    {
      tracker.goneSince == Clocks(rows) && RowsInOrder(rows)
    }

    /** Past row `k`: what the tracker makes of it, and whether its member is due. */
    method LookAt(found: seq<Found>, k: nat, now: int, dwell: nat, ghost start: seq<Seen>) returns (due: bool)
      requires Valid() && k < |found| && rows == start + RowsOf(found[..k], now)
      requires forall i | 0 <= i < |rows| :: rows[i].at <= now
      modifies this`rows, tracker
      ensures Valid() && rows == start + RowsOf(found[..k + 1], now)
      ensures forall i | 0 <= i < |rows| :: rows[i].at <= now
      ensures due == Due(start, found, now, dwell, k)
    {
      var row := found[k].row;
      OneRowMore(start, found, k, now);
      rows := start + RowsOf(found[..k + 1], now);
      WaivedExactlyWhenGoneForTheDwell(rows, row.host, now, dwell);
      if row.isSelf { return false; }
      if row.healthy {
        tracker.ObserveReachable(row.host);
        return false;
      }
      tracker.Observe(row.host, found[k].verdict, now);
      return tracker.IsWaived(row.host, now, dwell);
    }

    /** A removed member's clock starts over. */
    method StartOver(host: string)
      requires Valid() && rows != [] && rows[|rows| - 1].Of(host)
      modifies this`rows, tracker
      ensures Valid() && rows == Ended(old(rows), true) && host !in tracker.goneSince
    {
      tracker.ObserveReachable(host);
      RemovedLast(rows, host);
      rows := Ended(rows, true);
    }

    /** The round comes past the rows in order, up to the first due one whose config
        cannot be read, and it ends there, or can be edited and the edit is taken: that
        member is removed, the only one, and its clock starts over. So does the clock of
        everyone seen healthy. */
    method Round(status: Option<seq<Found>>, now: int, dwell: nat) returns (removed: Option<(string, Config)>)
      requires Valid() && forall i | 0 <= i < |rows| :: rows[i].at <= now
      modifies this, tracker
      ensures Valid() && old(rows) <= rows
      ensures status.None? ==> removed.None? && rows == old(rows)
      ensures status.Some? ==> Came(old(rows), rows, status.value, now, dwell, |rows| - |old(rows)|, removed)
      ensures removed.Some? ==> removed.value.0 !in tracker.goneSince
      ensures status.Some? && removed.None? && |rows| == |old(rows)| + |status.value| ==>
                forall k | LastRowHealthy(status.value, k) :: status.value[k].row.host !in tracker.goneSince
    {
      if status.None? { return None; }
      var found := status.value;
      ghost var start := rows;
      for k := 0 to |found|
        invariant Valid() && rows == start + RowsOf(found[..k], now)
        invariant forall i | 0 <= i < |rows| :: rows[i].at <= now
        invariant forall j | 0 <= j < k :: Passes(start, found, now, dwell, j)
      {
        var due := LookAt(found, k, now, dwell, start);
        if !due { continue; }
        if found[k].config.None? {
          CameToAnUnreadConfig(start, found, now, dwell, k);
          AfterTheRound(rows, start, found, now, k + 1);
          return None;
        }
        var host := found[k].row.host;
        var next := ConfigWithMemberRemoved(found[k].config.value, host);
        if next.Ok? && found[k].accepted {
          StartOver(host);
          CameToARemoval(start, found, now, dwell, k, next.value);
          return Some((host, next.value));
        }
      }
      CameToTheEnd(start, found, now, dwell);
      AfterTheRound(rows, start, found, now, |found|);
      return None;
    }
  }

  lemma AfterTheRound(rows: seq<Seen>, start: seq<Seen>, found: seq<Found>, now: int, n: nat)
    requires n <= |found| && rows == start + RowsOf(found[..n], now) && RowsInOrder(rows)
    ensures n == |found| ==> forall k | LastRowHealthy(found, k) :: found[k].row.host !in Clocks(rows)
  {
    if n == |found| {
      assert found[..n] == found;
      forall k | LastRowHealthy(found, k) ensures found[k].row.host !in Clocks(rows) {
        HealthyLastHasNoClock(start, found, now, k);
      }
    }
  }

  lemma RemovedLast(rows: seq<Seen>, host: string)
    requires rows != [] && rows[|rows| - 1].Of(host) && RowsInOrder(rows)
    ensures Clocks(Ended(rows, true)) == Clocks(rows) - {host} && RowsInOrder(Ended(rows, true))
  {
    assert Ended(rows, true)[..|rows| - 1] == rows[..|rows| - 1];
  }

  lemma NoClockAfterAHealthyRow(rows: seq<Seen>, host: string, at: int)
    requires RowsInOrder(rows) && 0 <= at < |rows| && rows[at].Of(host) && !rows[at].IsGone()
    requires forall s | at < s < |rows| :: !rows[s].Of(host)
    ensures host !in Clocks(rows)
  {
    ClockIsTheGoneRun(rows, host);
  }

  lemma HealthyLastHasNoClock(rows: seq<Seen>, found: seq<Found>, now: int, k: int)
    requires LastRowHealthy(found, k) && RowsInOrder(rows + RowsOf(found, now))
    ensures found[k].row.host !in Clocks(rows + RowsOf(found, now))
  {
    var more := RowsOf(found, now);
    assert forall s | 0 <= s < |more| :: (rows + more)[|rows| + s] == more[s];
    forall s | |rows| + k < s < |rows + more| ensures !(rows + more)[s].Of(found[k].row.host) {
      assert (rows + more)[s] == more[s - |rows|];
    }
    NoClockAfterAHealthyRow(rows + more, found[k].row.host, |rows| + k);
  }

  /** The config a prune hands in, read from a well-formed one: the host is gone from it,
      everyone else is still there, and somebody is left. */
  lemma APruneRemovesOnlyItsHost(found: Found)
    requires Removable(found) && WellFormed(found.config.value)
    ensures var c, d := found.config.value, ConfigWithMemberRemoved(found.config.value, found.row.host).value;
            && WellFormed(d) && Members(d) != []
            && HostSet(d) == HostSet(c) - {Text.Fold(found.row.host)}
  {
    RemoveKeepsWellFormed(found.config.value, found.row.host);
  }
}
