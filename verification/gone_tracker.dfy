/** How long each unreachable peer's name has been authoritatively gone. */
module GoneTrackers {
  import opened Names

  function ObserveName(since: map<string, int>, host: string, verdict: NameVerdict, now: int): map<string, int> {
    match verdict
    case Gone => if host in since then since else since[host := now]
    case ExistsOrUnknown => since - {host}
  }

  predicate WaivedIn(since: map<string, int>, host: string, now: int, dwell: nat) {
    host in since && now - since[host] >= dwell
  }

  class GoneTracker {
    var goneSince: map<string, int>

    constructor ()
      ensures goneSince == map[]
    {
      goneSince := map[];
    }

    method Observe(host: string, verdict: NameVerdict, now: int)
      modifies this
      ensures goneSince == ObserveName(old(goneSince), host, verdict, now)
    {
      match verdict {
        case Gone =>
          if host !in goneSince {
            goneSince := goneSince[host := now];
          }
        case ExistsOrUnknown =>
          goneSince := goneSince - {host};
      }
    }

    method ObserveReachable(host: string)
      modifies this
      ensures goneSince == old(goneSince) - {host}
    {
      goneSince := goneSince - {host};
    }

    predicate IsWaived(host: string, now: int, dwell: nat)
      reads this
    {
      WaivedIn(goneSince, host, now, dwell)
    }
  }

  /** One look at one host: it answered, or its name was asked for. */
  datatype Look = Look(host: string, reachable: bool, verdict: NameVerdict, at: int)
  {
    predicate IsGone() {
      !reachable && verdict.Gone?
    }
  }

  function Tracked(looks: seq<Look>): map<string, int> {
    if looks == [] then map[]
    else
      var before := Tracked(looks[..|looks| - 1]);
      var last := looks[|looks| - 1];
      if last.reachable then before - {last.host} else ObserveName(before, last.host, last.verdict, last.at)
  }

  lemma TrackedOneMore(looks: seq<Look>, look: Look)
    ensures Tracked(looks + [look]) ==
            if look.reachable then Tracked(looks) - {look.host}
            else ObserveName(Tracked(looks), look.host, look.verdict, look.at)
  {
    assert (looks + [look])[..|looks|] == looks;
  }

  /** From look `s` on, every look at `host` found its name gone. */
  predicate GoneSince(looks: seq<Look>, host: string, s: int) {
    && 0 <= s < |looks| && looks[s].host == host
    && forall k | s <= k < |looks| && looks[k].host == host :: looks[k].IsGone()
  }

  predicate InOrder(looks: seq<Look>) {
    forall i, j | 0 <= i <= j < |looks| :: looks[i].at <= looks[j].at
  }

  lemma GoneSinceShorter(looks: seq<Look>, host: string, s: int)
    requires looks != [] && s < |looks| - 1
    ensures GoneSince(looks, host, s) <==>
              GoneSince(looks[..|looks| - 1], host, s)
              && (looks[|looks| - 1].host == host ==> looks[|looks| - 1].IsGone())
  {
  }

  /** The clock of a host stands at the first look of its trailing run of gone looks. */
  lemma {:induction false} ClockIsTheTrailingRun(looks: seq<Look>, host: string)
    requires InOrder(looks)
    ensures host in Tracked(looks) <==> exists s :: GoneSince(looks, host, s)
    ensures host in Tracked(looks) ==>
              (exists s :: GoneSince(looks, host, s) && looks[s].at == Tracked(looks)[host])
    ensures forall s | GoneSince(looks, host, s) :: host in Tracked(looks) && Tracked(looks)[host] <= looks[s].at
  {
    if looks != [] {
      var n := |looks| - 1;
      var before, last := looks[..n], looks[n];
      ClockIsTheTrailingRun(before, host);
      forall s | GoneSince(looks, host, s)
        ensures host in Tracked(looks) && Tracked(looks)[host] <= looks[s].at
      {
        if s < n {
          GoneSinceShorter(looks, host, s);
          assert before[s] == looks[s];
        } else {
          assert last.host == host && last.IsGone();
          if host in Tracked(before) {
            var r :| GoneSince(before, host, r) && before[r].at == Tracked(before)[host];
            assert looks[r].at <= looks[n].at;
          }
        }
      }
      if host in Tracked(looks) {
        if host in Tracked(before) {
          var s :| GoneSince(before, host, s) && before[s].at == Tracked(before)[host];
          GoneSinceShorter(looks, host, s);
          assert GoneSince(looks, host, s) && looks[s].at == Tracked(looks)[host];
        } else {
          assert GoneSince(looks, host, n) && looks[n].at == Tracked(looks)[host];
        }
      }
    }
  }

  /** A peer is waived exactly when the unbroken run of gone looks that reaches to
      now began at least the dwell ago. */
  lemma WaivedIffGoneForTheDwell(looks: seq<Look>, host: string, now: int, dwell: nat)
    requires InOrder(looks)
    ensures WaivedIn(Tracked(looks), host, now, dwell) <==>
              exists s :: GoneSince(looks, host, s) && now - looks[s].at >= dwell
  {
    ClockIsTheTrailingRun(looks, host);
  }

  /** The run is one of looks, not of time: two looks a dwell apart are enough, with
      nothing known of the name in between. */
  lemma TwoLooksSuffice(host: string, at: int, dwell: nat)
    ensures var looks := [Look(host, false, Gone, at), Look(host, false, Gone, at + dwell)];
            WaivedIn(Tracked(looks), host, at + dwell, dwell)
  {
    var looks := [Look(host, false, Gone, at), Look(host, false, Gone, at + dwell)];
    assert GoneSince(looks, host, 0);
    WaivedIffGoneForTheDwell(looks, host, at + dwell, dwell);
  }
}
