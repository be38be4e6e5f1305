/** Initiate or join: how a node without a replica set config decides, and why no
    two nodes ever create a set beside each other. */
module Formation {
  import opened Wrappers
  import opened Names
  import opened Text
  import opened GoneTrackers

  // ---------------------------------------------------------------- RS_SEEDS

  function HostOf(entry: string): string {
    Split(Trim(entry), ':')[0]
  }

  function HostsOf(entries: seq<string>): seq<string> {
    if entries == [] then []
    else (if HostOf(entries[0]) == "" then [] else [HostOf(entries[0])]) + HostsOf(entries[1..])
  }

  function SeedHosts(rsSeeds: string): seq<string> {
    HostsOf(Split(rsSeeds, ','))
  }

  function SeedRank(seeds: seq<string>, host: string): (rank: Option<nat>)
    ensures rank.Some? ==> rank.value < |seeds| && EqIgnoreCase(seeds[rank.value], host)
    ensures rank.Some? ==> forall i | 0 <= i < rank.value :: !EqIgnoreCase(seeds[i], host)
    ensures rank.None? ==> forall i | 0 <= i < |seeds| :: !EqIgnoreCase(seeds[i], host)
  {
    if seeds == [] then None
    else if EqIgnoreCase(seeds[0], host) then Some(0)
    else
      var rest := SeedRank(seeds[1..], host);
      if rest.Some? then Some(rest.value + 1) else None
  }

  function PeerHosts(seeds: seq<string>, me: string): seq<string> {
    if seeds == [] then []
    else (if EqIgnoreCase(seeds[0], me) then [] else [seeds[0]]) + PeerHosts(seeds[1..], me)
  }

  predicate DistinctHosts(seeds: seq<string>) {
    forall i, j | 0 <= i < j < |seeds| :: !EqIgnoreCase(seeds[i], seeds[j])
  }

  /** A seed entry as it is stamped: padding, a host, a port. */
  predicate Stamped(entry: string, pad: string, host: string, port: string) {
    && entry == pad + host + ":" + port
    && Blank(pad) && host != "" && !IsWhitespace(host[0])
    && Free(host, ':') && Free(entry, ',')
  }

  lemma StampedEntryYieldsItsHost(entry: string, pad: string, host: string, port: string)
    requires Stamped(entry, pad, host, port)
    ensures HostOf(entry) == host
  {
    assert entry == pad + (host + ":" + port);
    TrimStartDropsBlanks(pad, host + ":" + port);
    TrimEndKeepsTheFront(host + ":", port);
    assert host + ":" + TrimEnd(port) == host + [':'] + TrimEnd(port);
    SplitAfterPart(host, TrimEnd(port), ':');
  }

  lemma {:induction false} StampedEntriesYieldTheirHosts(entries: seq<string>, pads: seq<string>, hosts: seq<string>, ports: seq<string>)
    requires |entries| == |pads| == |hosts| == |ports|
    requires forall i | 0 <= i < |entries| :: Stamped(entries[i], pads[i], hosts[i], ports[i])
    ensures HostsOf(entries) == hosts
  {
    if entries != [] {
      StampedEntryYieldsItsHost(entries[0], pads[0], hosts[0], ports[0]);
      StampedEntriesYieldTheirHosts(entries[1..], pads[1..], hosts[1..], ports[1..]);
      assert [hosts[0]] + hosts[1..] == hosts;
    }
  }

  /** The list the template stamps is read back in its own order. */
  lemma SeedsRoundTrip(entries: seq<string>, pads: seq<string>, hosts: seq<string>, ports: seq<string>)
    requires |entries| == |pads| == |hosts| == |ports| && entries != []
    requires forall i | 0 <= i < |entries| :: Stamped(entries[i], pads[i], hosts[i], ports[i])
    ensures SeedHosts(Join(entries, ',')) == hosts
  {
    SplitOfJoin(entries, ',');
    StampedEntriesYieldTheirHosts(entries, pads, hosts, ports);
  }

  /** With distinct hosts a seed's rank is its position, whatever the case it is
      asked for in. */
  lemma RankIsPosition(seeds: seq<string>, host: string, i: nat)
    requires DistinctHosts(seeds) && i < |seeds| && EqIgnoreCase(host, seeds[i])
    ensures SeedRank(seeds, host) == Some(i)
  {
  }

  // ---------------------------------------------------------------- one decision

  datatype RsState = RsState(setActive: bool, primaryHost: Option<string>, hasData: bool)
  datatype PeerAnswer = State(state: RsState) | NotReady | Unreachable
  datatype PeerStanding = InSet(primaryHost: Option<string>) | NoSet(hasData: bool) | Unknown
  datatype Peer = Peer(host: string, rank: Option<nat>, standing: PeerStanding)
  datatype Verdict =
    | JoinExisting(primaryHost: Option<string>)
    | SafeToInitiate
    | DeferTo(host: string)
    | Undecidable

  function StandingOf(answer: PeerAnswer): PeerStanding {
    match answer
    case State(RsState(true, primaryHost, _)) => InSet(primaryHost)
    case State(RsState(false, _, hasData)) => NoSet(hasData)
    case _ => Unknown
  }

  /** An undeclared host ranks after every declared one. */
  predicate RankBefore(a: Option<nat>, b: Option<nat>) {
    a.Some? && (b.None? || a.value < b.value)
  }

  predicate Outranks(data: bool, rank: Option<nat>, otherData: bool, otherRank: Option<nat>) {
    if data != otherData then data else RankBefore(rank, otherRank)
  }

  function KnownPrimary(peers: seq<Peer>): Option<string> {
    if peers == [] then None
    else if peers[0].standing.InSet? && peers[0].standing.primaryHost.Some? then peers[0].standing.primaryHost
    else KnownPrimary(peers[1..])
  }

  function FirstAbove(hasData: bool, rank: Option<nat>, peers: seq<Peer>): Option<string> {
    if peers == [] then None
    else if peers[0].standing.NoSet? && Outranks(peers[0].standing.hasData, peers[0].rank, hasData, rank)
    then Some(peers[0].host)
    else FirstAbove(hasData, rank, peers[1..])
  }

  function Decide(hasData: bool, rank: Option<nat>, peers: seq<Peer>): Verdict {
    if exists i | 0 <= i < |peers| :: peers[i].standing.InSet? then JoinExisting(KnownPrimary(peers))
    else if exists i | 0 <= i < |peers| :: peers[i].standing.Unknown? then Undecidable
    else
      var above := FirstAbove(hasData, rank, peers);
      if above.Some? then DeferTo(above.value) else SafeToInitiate
  }

  lemma {:induction false} FirstAboveIsTheFirst(hasData: bool, rank: Option<nat>, peers: seq<Peer>)
    ensures var above := FirstAbove(hasData, rank, peers);
            && (above.None? <==> forall i | 0 <= i < |peers| && peers[i].standing.NoSet? ::
                                   !Outranks(peers[i].standing.hasData, peers[i].rank, hasData, rank))
            && (above.Some? ==> exists i :: 0 <= i < |peers| && peers[i].standing.NoSet? && peers[i].host == above.value
                                            && Outranks(peers[i].standing.hasData, peers[i].rank, hasData, rank))
  {
    if peers != [] {
      FirstAboveIsTheFirst(hasData, rank, peers[1..]);
      var above := FirstAbove(hasData, rank, peers[1..]);
      if above.None? {
        assert forall i | 1 <= i < |peers| :: peers[i] == peers[1..][i - 1];
      }
    }
  }

  /** Peer i is the first one in a set that knows a primary. */
  predicate FirstToKnow(peers: seq<Peer>, i: int) {
    && 0 <= i < |peers| && peers[i].standing.InSet? && peers[i].standing.primaryHost.Some?
    && forall k | 0 <= k < i :: peers[k].standing.InSet? ==> peers[k].standing.primaryHost.None?
  }

  /** A join goes to the primary named by the first peer that knows one, even when
      other peers in the set know none. */
  lemma {:induction false} JoinPrefersAKnownPrimary(peers: seq<Peer>)
    ensures forall i | FirstToKnow(peers, i) :: KnownPrimary(peers) == peers[i].standing.primaryHost
    ensures KnownPrimary(peers).Some? <==> exists i :: FirstToKnow(peers, i)
  {
    if peers != [] && !(peers[0].standing.InSet? && peers[0].standing.primaryHost.Some?) {
      JoinPrefersAKnownPrimary(peers[1..]);
      forall i | FirstToKnow(peers, i) ensures KnownPrimary(peers) == peers[i].standing.primaryHost {
        assert FirstToKnow(peers[1..], i - 1);
      }
      if KnownPrimary(peers).Some? {
        var i :| FirstToKnow(peers[1..], i);
        assert FirstToKnow(peers, i + 1);
      }
    } else if peers != [] {
      assert FirstToKnow(peers, 0);
    }
  }

  /** The verdicts, each by what the peers said: a node may initiate only over
      peers that all answered, none in a set and none ahead of it. */
  lemma VerdictMeans(hasData: bool, rank: Option<nat>, peers: seq<Peer>)
    ensures var verdict := Decide(hasData, rank, peers);
            && (verdict.JoinExisting? <==> exists i :: 0 <= i < |peers| && peers[i].standing.InSet?)
            && (verdict.SafeToInitiate? <==>
                  forall i | 0 <= i < |peers| ::
                    peers[i].standing.NoSet? && !Outranks(peers[i].standing.hasData, peers[i].rank, hasData, rank))
            && (verdict.DeferTo? ==>
                  exists i :: 0 <= i < |peers| && peers[i].host == verdict.host && peers[i].standing.NoSet?
                              && Outranks(peers[i].standing.hasData, peers[i].rank, hasData, rank))
            && (verdict.Undecidable? <==>
                  (forall i | 0 <= i < |peers| :: !peers[i].standing.InSet?)
                  && exists i :: 0 <= i < |peers| && peers[i].standing.Unknown?)
  {
    FirstAboveIsTheFirst(hasData, rank, peers);
  }

  // ---------------------------------------------------------------- one turn of the loop

  /** What a turn heard about one peer; `name` is what a probe of its name finds. */
  datatype Heard = Heard(host: string, answer: PeerAnswer, name: NameVerdict)
  {
    /** Nothing was heard from it. */
    predicate Missing() {
      answer.NotReady? || answer.Unreachable?
    }

    predicate HoldsASet() {
      answer.State? && answer.state.setActive
    }

    predicate NamesAPrimary() {
      HoldsASet() && answer.state.primaryHost.Some?
    }
  }

  function AfterHearing(gone: map<string, int>, h: Heard, now: int): map<string, int> {
    if h.Missing() then ObserveName(gone, h.host, h.name, now) else gone - {h.host}
  }

  function RoundGone(gone: map<string, int>, heard: seq<Heard>, now: int): map<string, int> {
    if heard == [] then gone
    else AfterHearing(RoundGone(gone, heard[..|heard| - 1], now), heard[|heard| - 1], now)
  }

  /** The k-th peer is waived from the round. */
  predicate WaivedAt(gone: map<string, int>, heard: seq<Heard>, now: int, dwell: nat, k: nat)
    requires k < |heard|
  {
    heard[k].Missing() && WaivedIn(RoundGone(gone, heard[..k + 1], now), heard[k].host, now, dwell)
  }

  function RoundPeers(gone: map<string, int>, seeds: seq<string>, heard: seq<Heard>, now: int, dwell: nat): seq<Peer> {
    if heard == [] then []
    else
      var n := |heard| - 1;
      assert heard[..n + 1] == heard;
      RoundPeers(gone, seeds, heard[..n], now, dwell)
      + (if WaivedAt(gone, heard, now, dwell, n) then []
         else [Peer(heard[n].host, SeedRank(seeds, heard[n].host), StandingOf(heard[n].answer))])
  }

  datatype Config = Config(seeds: seq<string>, me: string, bootstrapDwell: nat, goneDwell: nat, hasData: bool)
  datatype Status = Failed | NotInitialized | NotAMember | Joined | Removed
  datatype Turn = Turn(status: Status, heard: seq<Heard>, now: int)
  datatype Local = Local(gone: map<string, int>, stableSince: Option<int>)
  datatype Outcome = Retry | IsMember | JoinThrough(primaryHost: Option<string>) | Hold | Initiate | RemovedWaits | Waits

  function TurnVerdict(c: Config, l: Local, t: Turn): Verdict {
    Decide(c.hasData, SeedRank(c.seeds, c.me), RoundPeers(l.gone, c.seeds, t.heard, t.now, c.goneDwell))
  }

  predicate Evaluated(t: Turn) {
    !t.status.Failed? && !t.status.Joined?
  }

  predicate HoldsConfig(t: Turn) {
    t.status.NotAMember? || t.status.Removed?
  }

  function OutcomeOf(c: Config, l: Local, t: Turn): Outcome {
    if t.status.Failed? then Retry
    else if t.status.Joined? then IsMember
    else
      match TurnVerdict(c, l, t)
      case JoinExisting(primaryHost) => JoinThrough(primaryHost)
      case SafeToInitiate =>
        if HoldsConfig(t) then RemovedWaits
        else if t.now - (if l.stableSince.Some? then l.stableSince.value else t.now) < c.bootstrapDwell then Hold
        else Initiate
      case _ => Waits
  }

  function LocalAfter(c: Config, l: Local, t: Turn): Local {
    if !Evaluated(t) then l
    else
      var gone := RoundGone(l.gone, t.heard, t.now);
      if !TurnVerdict(c, l, t).SafeToInitiate? then Local(gone, None)
      else if HoldsConfig(t) then Local(gone, l.stableSince)
      else if OutcomeOf(c, l, t).Initiate? then Local(gone, None)
      else Local(gone, Some(if l.stableSince.Some? then l.stableSince.value else t.now))
  }

  // ---------------------------------------------------------------- what a turn makes of the answers

  /** The first answer from a set that knows its primary. */
  predicate FirstToName(heard: seq<Heard>, k: int) {
    0 <= k < |heard| && heard[k].NamesAPrimary() && forall j | 0 <= j < k :: !heard[j].NamesAPrimary()
  }

  lemma {:induction false} KnownPrimaryOfMore(peers: seq<Peer>, peer: Peer)
    ensures KnownPrimary(peers + [peer]) ==
            if KnownPrimary(peers).Some? then KnownPrimary(peers)
            else if peer.standing.InSet? then peer.standing.primaryHost else None
  {
    var more := peers + [peer];
    if peers == [] {
      assert more == [peer] && more[1..] == [];
    } else {
      assert more[0] == peers[0] && more[1..] == peers[1..] + [peer];
      KnownPrimaryOfMore(peers[1..], peer);
    }
  }

  predicate HearsASet(heard: seq<Heard>) {
    exists k | 0 <= k < |heard| :: heard[k].HoldsASet()
  }

  predicate SomeInSet(peers: seq<Peer>) {
    exists i | 0 <= i < |peers| :: peers[i].standing.InSet?
  }

  lemma OneMoreHeard(heard: seq<Heard>)
    requires heard != []
    ensures HearsASet(heard) <==> HearsASet(heard[..|heard| - 1]) || heard[|heard| - 1].HoldsASet()
  {
    if HearsASet(heard[..|heard| - 1]) {
      var k :| 0 <= k < |heard| - 1 && heard[..|heard| - 1][k].HoldsASet();
      assert heard[k].HoldsASet();
    }
  }

  lemma OneMoreInSet(peers: seq<Peer>, peer: Peer)
    ensures SomeInSet(peers + [peer]) <==> SomeInSet(peers) || peer.standing.InSet?
  {
    if SomeInSet(peers) {
      var i :| 0 <= i < |peers| && peers[i].standing.InSet?;
      assert (peers + [peer])[i].standing.InSet?;
    } else if peer.standing.InSet? {
      assert (peers + [peer])[|peers|].standing.InSet?;
    }
  }

  /** The last peer heard: left out, or added as what it answered. */
  lemma OnePeerMore(gone: map<string, int>, seeds: seq<string>, heard: seq<Heard>, now: int, dwell: nat)
    requires heard != []
    ensures var n := |heard| - 1;
            var before := RoundPeers(gone, seeds, heard[..n], now, dwell);
            && RoundPeers(gone, seeds, heard, now, dwell)
               == (if WaivedAt(gone, heard, now, dwell, n) then before
                   else before + [Peer(heard[n].host, SeedRank(seeds, heard[n].host), StandingOf(heard[n].answer))])
            && (WaivedAt(gone, heard, now, dwell, n) ==> !heard[n].HoldsASet())
  {
    assert heard[..|heard|] == heard;
  }

  /** Every answer from a set counts. */
  lemma {:induction false} SetsAreCounted(gone: map<string, int>, seeds: seq<string>, heard: seq<Heard>, now: int, dwell: nat)
    ensures SomeInSet(RoundPeers(gone, seeds, heard, now, dwell)) <==> HearsASet(heard)
  {
    if heard != [] {
      var n := |heard| - 1;
      OnePeerMore(gone, seeds, heard, now, dwell);
      SetsAreCounted(gone, seeds, heard[..n], now, dwell);
      OneMoreHeard(heard);
      OneMoreInSet(RoundPeers(gone, seeds, heard[..n], now, dwell),
                   Peer(heard[n].host, SeedRank(seeds, heard[n].host), StandingOf(heard[n].answer)));
    }
  }

  lemma NoneNamedYet(heard: seq<Heard>)
    requires heard != []
    ensures var n := |heard| - 1;
            && ((forall k | 0 <= k < |heard| :: !heard[k].NamesAPrimary())
                <==> (forall k | 0 <= k < n :: !heard[..n][k].NamesAPrimary()) && !heard[n].NamesAPrimary())
            && (forall k | k < n :: FirstToName(heard, k) <==> FirstToName(heard[..n], k))
  {
    var n := |heard| - 1;
    assert forall k | 0 <= k < n :: heard[..n][k] == heard[k];
  }

  /** And in its place. */
  lemma {:induction false} ThePrimaryIsTheFirstNamed(gone: map<string, int>, seeds: seq<string>, heard: seq<Heard>, now: int, dwell: nat)
    ensures var primary := KnownPrimary(RoundPeers(gone, seeds, heard, now, dwell));
            && (primary.None? <==> forall k | 0 <= k < |heard| :: !heard[k].NamesAPrimary())
            && (forall k | FirstToName(heard, k) :: primary == heard[k].answer.state.primaryHost)
  {
    if heard != [] {
      var n := |heard| - 1;
      OnePeerMore(gone, seeds, heard, now, dwell);
      ThePrimaryIsTheFirstNamed(gone, seeds, heard[..n], now, dwell);
      NoneNamedYet(heard);
      KnownPrimaryOfMore(RoundPeers(gone, seeds, heard[..n], now, dwell),
                         Peer(heard[n].host, SeedRank(seeds, heard[n].host), StandingOf(heard[n].answer)));
    }
  }

  /** `host` is declared, and before `me` or without it. */
  predicate DeclaredBefore(seeds: seq<string>, host: string, me: string) {
    exists i | 0 <= i < |seeds| :: EqIgnoreCase(seeds[i], host) && forall j | 0 <= j <= i :: !EqIgnoreCase(seeds[j], me)
  }

  lemma RanksAreTheDeclaredOrder(seeds: seq<string>, host: string, me: string)
    ensures RankBefore(SeedRank(seeds, host), SeedRank(seeds, me)) <==> DeclaredBefore(seeds, host, me)
  {
  }

  /** An answer without a set that beats this node: it holds user data and this node
      none, or both alike and it is declared earlier. */
  predicate Beats(h: Heard, c: Config) {
    && h.answer.State? && !h.answer.state.setActive
    && ((h.answer.state.hasData && !c.hasData)
        || (h.answer.state.hasData == c.hasData && DeclaredBefore(c.seeds, h.host, c.me)))
  }

  /** Every peer answered, none with a set and none that beats this node; those whose
      names are gone for the dwell are let off. */
  predicate Clear(c: Config, gone: map<string, int>, t: Turn) {
    forall k | 0 <= k < |t.heard| ::
      || WaivedAt(gone, t.heard, t.now, c.goneDwell, k)
      || (t.heard[k].answer.State? && !t.heard[k].answer.state.setActive && !Beats(t.heard[k], c))
  }

  lemma {:induction false} CountedUnlessWaived(gone: map<string, int>, seeds: seq<string>, heard: seq<Heard>,
                                              now: int, dwell: nat, p: nat) returns (at: nat)
    requires p < |heard| && !WaivedAt(gone, heard, now, dwell, p)
    ensures var peers := RoundPeers(gone, seeds, heard, now, dwell);
            at < |peers| && peers[at] == Peer(heard[p].host, SeedRank(seeds, heard[p].host), StandingOf(heard[p].answer))
  {
    var n := |heard| - 1;
    assert heard[..n + 1] == heard;
    if p == n {
      at := |RoundPeers(gone, seeds, heard[..n], now, dwell)|;
    } else {
      assert heard[..n][..p + 1] == heard[..p + 1];
      at := CountedUnlessWaived(gone, seeds, heard[..n], now, dwell, p);
    }
  }

  lemma {:induction false} EveryPeerWasHeard(gone: map<string, int>, seeds: seq<string>, heard: seq<Heard>,
                                             now: int, dwell: nat, p: nat) returns (k: nat)
    requires p < |RoundPeers(gone, seeds, heard, now, dwell)|
    ensures k < |heard| && !WaivedAt(gone, heard, now, dwell, k)
    ensures RoundPeers(gone, seeds, heard, now, dwell)[p]
            == Peer(heard[k].host, SeedRank(seeds, heard[k].host), StandingOf(heard[k].answer))
  {
    var n := |heard| - 1;
    assert heard[..n + 1] == heard;
    if p < |RoundPeers(gone, seeds, heard[..n], now, dwell)| {
      k := EveryPeerWasHeard(gone, seeds, heard[..n], now, dwell, p);
      assert heard[..n][..k + 1] == heard[..k + 1];
    } else {
      k := n;
    }
  }

  lemma SafeExactlyWhenClear(c: Config, l: Local, t: Turn)
    ensures TurnVerdict(c, l, t).SafeToInitiate? <==> Clear(c, l.gone, t)
  {
    var peers := RoundPeers(l.gone, c.seeds, t.heard, t.now, c.goneDwell);
    VerdictMeans(c.hasData, SeedRank(c.seeds, c.me), peers);
    if Clear(c, l.gone, t) {
      forall p | 0 <= p < |peers|
        ensures peers[p].standing.NoSet? && !Outranks(peers[p].standing.hasData, peers[p].rank, c.hasData, SeedRank(c.seeds, c.me))
      {
        var k := EveryPeerWasHeard(l.gone, c.seeds, t.heard, t.now, c.goneDwell, p);
        RanksAreTheDeclaredOrder(c.seeds, t.heard[k].host, c.me);
      }
    }
    if TurnVerdict(c, l, t).SafeToInitiate? {
      forall k | 0 <= k < |t.heard| && !WaivedAt(l.gone, t.heard, t.now, c.goneDwell, k)
        ensures t.heard[k].answer.State? && !t.heard[k].answer.state.setActive && !Beats(t.heard[k], c)
      {
        var at := CountedUnlessWaived(l.gone, c.seeds, t.heard, t.now, c.goneDwell, k);
        RanksAreTheDeclaredOrder(c.seeds, t.heard[k].host, c.me);
      }
    }
  }

  /** A turn that reads its status and is no member joins exactly if some answer comes
      from a set, through the primary that the first of them to know one names. */
  lemma JoinsTheSetItHears(c: Config, l: Local, t: Turn)
    requires t.status in {NotInitialized, NotAMember, Removed}
    ensures OutcomeOf(c, l, t).JoinThrough? <==> HearsASet(t.heard)
    ensures forall k | FirstToName(t.heard, k) :: OutcomeOf(c, l, t) == JoinThrough(t.heard[k].answer.state.primaryHost)
    ensures OutcomeOf(c, l, t) == JoinThrough(None) ==> forall k | 0 <= k < |t.heard| :: !t.heard[k].NamesAPrimary()
  {
    SetsAreCounted(l.gone, c.seeds, t.heard, t.now, c.goneDwell);
    ThePrimaryIsTheFirstNamed(l.gone, c.seeds, t.heard, t.now, c.goneDwell);
  }

  /** Every other turn, by its answers: it initiates or holds only when clear, and any
      turn that is not clear starts the dwell over. */
  lemma ATurnByItsAnswers(c: Config, l: Local, t: Turn)
    ensures var outcome, after := OutcomeOf(c, l, t), LocalAfter(c, l, t);
            match t.status
            case Failed => outcome == Retry && after == l
            case Joined => outcome == IsMember && after == l
            case NotInitialized =>
              var since := if l.stableSince.Some? then l.stableSince.value else t.now;
              && (Clear(c, l.gone, t) && t.now - since >= c.bootstrapDwell ==> outcome == Initiate && after.stableSince.None?)
              && (Clear(c, l.gone, t) && t.now - since < c.bootstrapDwell ==> outcome == Hold && after.stableSince == Some(since))
              && (!Clear(c, l.gone, t) ==> (outcome == Waits || outcome.JoinThrough?) && after.stableSince.None?)
            case _ =>
              && (Clear(c, l.gone, t) ==> outcome == RemovedWaits && after.stableSince == l.stableSince)
              && (!Clear(c, l.gone, t) ==> (outcome == Waits || outcome.JoinThrough?) && after.stableSince.None?)
    ensures t.status in {NotInitialized, NotAMember, Removed} ==> LocalAfter(c, l, t).gone == RoundGone(l.gone, t.heard, t.now)
  {
    SafeExactlyWhenClear(c, l, t);
  }

  // ---------------------------------------------------------------- the node

  class Orchestrator {
    const config: Config
    const gone: GoneTracker
    var stableSince: Option<int>

    constructor (config: Config)
      ensures this.config == config && fresh(gone) && View() == Local(map[], None)
    {
      this.config := config;
      gone := new GoneTracker();
      stableSince := None;
    }

    function View(): Local
      reads this, gone
    {
      Local(gone.goneSince, stableSince)
    }

    /** The peers that count in this round: those that answered and those whose name
        is not gone long enough to be waived. */
    method CollectPeers(heard: seq<Heard>, now: int) returns (peers: seq<Peer>)
      modifies gone
      ensures peers == RoundPeers(old(gone.goneSince), config.seeds, heard, now, config.goneDwell)
      ensures gone.goneSince == RoundGone(old(gone.goneSince), heard, now)
    {
      peers := [];
      for k := 0 to |heard|
        invariant gone.goneSince == RoundGone(old(gone.goneSince), heard[..k], now)
        invariant peers == RoundPeers(old(gone.goneSince), config.seeds, heard[..k], now, config.goneDwell)
      {
        var h := heard[k];
        var standing := StandingOf(h.answer);
        assert heard[..k + 1][..k] == heard[..k];
        assert heard[..k + 1][..k + 1] == heard[..k + 1];
        if standing.Unknown? {
          gone.Observe(h.host, h.name, now);
          if gone.IsWaived(h.host, now, config.goneDwell) {
            continue;
          }
        } else {
          gone.ObserveReachable(h.host);
        }
        peers := peers + [Peer(h.host, SeedRank(config.seeds, h.host), standing)];
      }
      assert heard[..|heard|] == heard;
    }

    /** One turn of the orchestration loop; `Initiate` and `JoinThrough` are the
        commands it issues. */
    method Take(t: Turn) returns (outcome: Outcome)
      modifies this, gone
      ensures outcome == OutcomeOf(config, old(View()), t)
      ensures View() == LocalAfter(config, old(View()), t)
      ensures t.status in {NotInitialized, NotAMember, Removed} ==>
                && (outcome.JoinThrough? <==> HearsASet(t.heard))
                && (forall k | FirstToName(t.heard, k) :: outcome == JoinThrough(t.heard[k].answer.state.primaryHost))
                && (outcome.Initiate? || outcome.Hold? ==> t.status == NotInitialized && Clear(config, old(gone.goneSince), t))
    {
      if t.status in {NotInitialized, NotAMember, Removed} {
        JoinsTheSetItHears(config, View(), t);
        ATurnByItsAnswers(config, View(), t);
      }
      if t.status.Failed? { return Retry; }
      if t.status.Joined? { return IsMember; }
      var removed := t.status.NotAMember? || t.status.Removed?;
      var peers := CollectPeers(t.heard, t.now);
      match Decide(config.hasData, SeedRank(config.seeds, config.me), peers) {
        case JoinExisting(primaryHost) =>
          stableSince := None;
          outcome := JoinThrough(primaryHost);
        case SafeToInitiate =>
          if removed { return RemovedWaits; }
          if stableSince.None? {
            stableSince := Some(t.now);
          }
          if t.now - stableSince.value < config.bootstrapDwell {
            outcome := Hold;
          } else {
            stableSince := None;
            outcome := Initiate;
          }
        case _ =>
          stableSince := None;
          outcome := Waits;
      }
    }
  }

  // ---------------------------------------------------------------- the dwell

  function LocalAt(c: Config, turns: seq<Turn>): Local {
    if turns == [] then Local(map[], None)
    else LocalAfter(c, LocalAt(c, turns[..|turns| - 1]), turns[|turns| - 1])
  }

  function VerdictAt(c: Config, turns: seq<Turn>, k: nat): Verdict
    requires k < |turns|
  {
    TurnVerdict(c, LocalAt(c, turns[..k]), turns[k])
  }

  function OutcomeAt(c: Config, turns: seq<Turn>, k: nat): Outcome
    requires k < |turns|
  {
    OutcomeOf(c, LocalAt(c, turns[..k]), turns[k])
  }

  predicate TurnsInOrder(turns: seq<Turn>) {
    forall i, j | 0 <= i <= j < |turns| :: turns[i].now <= turns[j].now
  }

  /** From turn s to the end of `turns`: every evaluated round was safe to initiate,
      none initiated, and round s counted. */
  predicate SafeSince(c: Config, turns: seq<Turn>, s: int) {
    && 0 <= s < |turns| && Evaluated(turns[s]) && !HoldsConfig(turns[s])
    && forall k | s <= k < |turns| && Evaluated(turns[k]) ::
         VerdictAt(c, turns, k).SafeToInitiate? && !OutcomeAt(c, turns, k).Initiate?
  }

  lemma SafeSinceShorter(c: Config, turns: seq<Turn>, s: int)
    requires turns != [] && s < |turns| - 1
    ensures var n := |turns| - 1;
            SafeSince(c, turns, s) <==>
              SafeSince(c, turns[..n], s)
              && (Evaluated(turns[n]) ==> VerdictAt(c, turns, n).SafeToInitiate? && !OutcomeAt(c, turns, n).Initiate?)
  {
    var n := |turns| - 1;
    var shorter := turns[..n];
    assert forall k | 0 <= k < n :: shorter[..k] == turns[..k] && shorter[k] == turns[k];
    assert forall k | 0 <= k < n :: VerdictAt(c, turns, k) == VerdictAt(c, shorter, k);
    assert forall k | 0 <= k < n :: OutcomeAt(c, turns, k) == OutcomeAt(c, shorter, k);
  }

  lemma {:induction false} StableSinceIsTheSafeRun(c: Config, turns: seq<Turn>)
    requires TurnsInOrder(turns)
    ensures var since := LocalAt(c, turns).stableSince;
            && (since.Some? ==> exists s :: SafeSince(c, turns, s) && turns[s].now == since.value)
            && (forall s | SafeSince(c, turns, s) :: since.Some? && since.value <= turns[s].now)
  {
    if turns != [] {
      var n := |turns| - 1;
      var shorter := turns[..n];
      StableSinceIsTheSafeRun(c, shorter);
      var before, since := LocalAt(c, shorter).stableSince, LocalAt(c, turns).stableSince;
      forall s | SafeSince(c, turns, s)
        ensures since.Some? && since.value <= turns[s].now
      {
        if s < n {
          SafeSinceShorter(c, turns, s);
          assert shorter[s] == turns[s];
        } else {
          assert VerdictAt(c, turns, n).SafeToInitiate?;
          if before.Some? {
            var r :| SafeSince(c, shorter, r) && shorter[r].now == before.value;
            assert turns[r].now <= turns[n].now;
          }
        }
      }
      if since.Some? {
        if before.Some? {
          var s :| SafeSince(c, shorter, s) && shorter[s].now == before.value;
          SafeSinceShorter(c, turns, s);
          assert turns[s].now == since.value && SafeSince(c, turns, s);
        } else {
          assert VerdictAt(c, turns, n).SafeToInitiate?;
          assert SafeSince(c, turns, n) && turns[n].now == since.value;
        }
      }
    }
  }

  /** A node initiates exactly when this round is safe, it holds no config, and the
      unbroken run of safe evaluated rounds it belongs to began the dwell ago.
      Rounds whose status could not be read neither count nor break the run. */
  lemma InitiatesIffSafeThroughTheDwell(c: Config, turns: seq<Turn>, t: Turn)
    requires TurnsInOrder(turns + [t])
    ensures OutcomeOf(c, LocalAt(c, turns), t).Initiate? <==>
              && Evaluated(t) && !HoldsConfig(t) && TurnVerdict(c, LocalAt(c, turns), t).SafeToInitiate?
              && (c.bootstrapDwell == 0 || exists s :: SafeSince(c, turns, s) && t.now - turns[s].now >= c.bootstrapDwell)
  {
    assert forall i | 0 <= i < |turns| :: (turns + [t])[i] == turns[i];
    StableSinceIsTheSafeRun(c, turns);
    var since := LocalAt(c, turns).stableSince;
    if since.Some? {
      var s :| SafeSince(c, turns, s) && turns[s].now == since.value;
      assert (turns + [t])[s].now <= (turns + [t])[|turns|].now;
    }
  }

  // ---------------------------------------------------------------- the whole formation

  /** Every node was stamped with the same seeds; node i calls itself names[i]. Who
      holds data does not change while the set forms. */
  datatype Group = Group(seeds: seq<string>, names: seq<string>, hasData: seq<bool>,
                         bootstrapDwell: nat, goneDwell: nat)
  {
    predicate Valid() {
      && |names| == |hasData| == |seeds| && DistinctHosts(seeds)
      && forall i | 0 <= i < |seeds| :: EqIgnoreCase(names[i], seeds[i])
    }

    function ConfigOf(i: nat): Config
      requires Valid() && i < |seeds|
    {
      Config(seeds, names[i], bootstrapDwell, goneDwell, hasData[i])
    }

    /** Node i precedes node j for initiation: with data before without, then in the
        order of the seeds. */
    predicate Above(i: nat, j: nat)
      requires Valid() && i < |seeds| && j < |seeds|
    {
      (hasData[i] && !hasData[j]) || (hasData[i] == hasData[j] && i < j)
    }
  }

  /** The answers of a turn name this node's peers in order. One that arrives states
      the peer's own `hasData`; what it says about a set may be stale or wrong. */
  predicate Truthful(g: Group, i: nat, t: Turn)
    requires g.Valid() && i < |g.seeds|
  {
    var peers := PeerHosts(g.seeds, g.names[i]);
    && |t.heard| == |peers|
    && forall k | 0 <= k < |peers| ::
         && t.heard[k].host == peers[k]
         && (t.heard[k].answer.State? ==>
               var rank := SeedRank(g.seeds, peers[k]);
               rank.Some? && t.heard[k].answer.state.hasData == g.hasData[rank.value])
  }

  datatype Event = Polls(node: nat, turn: Turn) | Restarts(node: nat)

  function Locals(g: Group, events: seq<Event>, i: nat): Local
    requires g.Valid() && i < |g.seeds|
  {
    if events == [] then Local(map[], None)
    else
      var before := Locals(g, events[..|events| - 1], i);
      match events[|events| - 1]
      case Polls(node, turn) => if node == i then LocalAfter(g.ConfigOf(i), before, turn) else before
      case Restarts(node) => if node == i then Local(map[], None) else before
  }

  predicate PossibleRun(g: Group, events: seq<Event>)
    requires g.Valid()
  {
    forall k | 0 <= k < |events| ::
      events[k].node < |g.seeds| && (events[k].Polls? ==> Truthful(g, events[k].node, events[k].turn))
  }

  /** Event k issues `rs_initiate` on its node. */
  predicate InitiatesAt(g: Group, events: seq<Event>, k: nat)
    requires g.Valid() && PossibleRun(g, events) && k < |events|
  {
    var e := events[k];
    e.Polls? && OutcomeOf(g.ConfigOf(e.node), Locals(g, events[..k], e.node), e.turn).Initiate?
  }

  /** At event k the node stopped waiting for node j. */
  predicate WaivesAt(g: Group, events: seq<Event>, k: nat, j: nat)
    requires g.Valid() && PossibleRun(g, events) && k < |events| && j < |g.seeds|
  {
    var e := events[k];
    e.Polls? && Evaluated(e.turn) && exists p | 0 <= p < |e.turn.heard| ::
      e.turn.heard[p].host == g.seeds[j]
      && WaivedAt(Locals(g, events[..k], e.node).gone, e.turn.heard, e.turn.now, g.goneDwell, p)
  }

  // ---------------------------------------------------------------- what a waiver stands on

  /** The looks a turn takes at its peers, in the terms of the tracker. */
  function HeardLooks(heard: seq<Heard>, now: int): seq<Look> {
    if heard == [] then []
    else
      var last := heard[|heard| - 1];
      HeardLooks(heard[..|heard| - 1], now) + [Look(last.host, !last.Missing(), last.name, now)]
  }

  /** All looks of node i since it last started. */
  function LooksOf(events: seq<Event>, i: nat): seq<Look> {
    if events == [] then []
    else
      var before, last := LooksOf(events[..|events| - 1], i), events[|events| - 1];
      if last.node != i then before
      else if last.Restarts? then []
      else if Evaluated(last.turn) then before + HeardLooks(last.turn.heard, last.turn.now)
      else before
  }

  lemma {:induction false} RoundGoneIsTracked(looks: seq<Look>, heard: seq<Heard>, now: int)
    ensures RoundGone(Tracked(looks), heard, now) == Tracked(looks + HeardLooks(heard, now))
  {
    if heard == [] {
      assert looks + [] == looks;
    } else {
      var n := |heard| - 1;
      RoundGoneIsTracked(looks, heard[..n], now);
      var before, look := looks + HeardLooks(heard[..n], now), Look(heard[n].host, !heard[n].Missing(), heard[n].name, now);
      assert looks + HeardLooks(heard, now) == before + [look];
      TrackedOneMore(before, look);
    }
  }

  lemma {:induction false} LocalGoneIsTracked(g: Group, events: seq<Event>, i: nat)
    requires g.Valid() && i < |g.seeds|
    ensures Locals(g, events, i).gone == Tracked(LooksOf(events, i))
  {
    if events != [] {
      var before, last := events[..|events| - 1], events[|events| - 1];
      LocalGoneIsTracked(g, before, i);
      if last.node == i && last.Polls? && Evaluated(last.turn) {
        RoundGoneIsTracked(LooksOf(before, i), last.turn.heard, last.turn.now);
      }
    }
  }

  /** Each node's clock goes on. */
  predicate ClocksGoOn(events: seq<Event>) {
    forall a, b | 0 <= a <= b < |events| && events[a].node == events[b].node && events[a].Polls? && events[b].Polls? ::
      events[a].turn.now <= events[b].turn.now
  }

  lemma {:induction false} HeardLooksAreNow(heard: seq<Heard>, now: int)
    ensures forall k | 0 <= k < |HeardLooks(heard, now)| :: HeardLooks(heard, now)[k].at == now
  {
    if heard != [] {
      HeardLooksAreNow(heard[..|heard| - 1], now);
    }
  }

  lemma InOrderMore(looks: seq<Look>, more: seq<Look>, now: int)
    requires InOrder(looks) && (forall k | 0 <= k < |looks| :: looks[k].at <= now)
    requires forall k | 0 <= k < |more| :: more[k].at == now
    ensures InOrder(looks + more) && forall k | 0 <= k < |looks + more| :: (looks + more)[k].at <= now
  {
    var all := looks + more;
    forall i, j | 0 <= i <= j < |all| ensures all[i].at <= all[j].at {
      assert all[j] == if j < |looks| then looks[j] else more[j - |looks|];
      assert all[i] == if i < |looks| then looks[i] else more[i - |looks|];
    }
  }

  lemma {:induction false} LooksInOrder(events: seq<Event>, i: nat, now: int)
    requires ClocksGoOn(events)
    requires forall a | 0 <= a < |events| && events[a].node == i && events[a].Polls? :: events[a].turn.now <= now
    ensures InOrder(LooksOf(events, i)) && forall k | 0 <= k < |LooksOf(events, i)| :: LooksOf(events, i)[k].at <= now
  {
    if events != [] {
      var n := |events| - 1;
      var before, last := events[..n], events[n];
      if last.node == i && last.Polls? {
        LooksInOrder(before, i, last.turn.now);
        HeardLooksAreNow(last.turn.heard, last.turn.now);
        InOrderMore(LooksOf(before, i), HeardLooks(last.turn.heard, last.turn.now), last.turn.now);
      } else {
        LooksInOrder(before, i, now);
      }
    }
  }

  /** A node stops waiting for a peer exactly if the peer does not answer and every look
      at it, since some look at least the dwell ago and no restart in between, found its
      name gone. */
  lemma WaivesExactlyWhenGoneForTheDwell(g: Group, events: seq<Event>, k: nat, p: nat)
    requires g.Valid() && PossibleRun(g, events) && ClocksGoOn(events)
    requires k < |events| && events[k].Polls? && p < |events[k].turn.heard|
    ensures var i, turn := events[k].node, events[k].turn;
            var looks := LooksOf(events[..k], i) + HeardLooks(turn.heard[..p + 1], turn.now);
            WaivedAt(Locals(g, events[..k], i).gone, turn.heard, turn.now, g.goneDwell, p) <==>
              turn.heard[p].Missing()
              && exists s :: GoneSince(looks, turn.heard[p].host, s) && turn.now - looks[s].at >= g.goneDwell
  {
    var i, turn := events[k].node, events[k].turn;
    var before, more := LooksOf(events[..k], i), HeardLooks(turn.heard[..p + 1], turn.now);
    LocalGoneIsTracked(g, events[..k], i);
    RoundGoneIsTracked(before, turn.heard[..p + 1], turn.now);
    assert forall a | 0 <= a < k :: events[..k][a] == events[a];
    LooksInOrder(events[..k], i, turn.now);
    HeardLooksAreNow(turn.heard[..p + 1], turn.now);
    InOrderMore(before, more, turn.now);
    WaivedIffGoneForTheDwell(before + more, turn.heard[p].host, turn.now, g.goneDwell);
  }

  // ---------------------------------------------------------------- who initiates

  lemma {:induction false} EveryOtherSeedIsAPeer(seeds: seq<string>, me: string, j: nat) returns (p: nat)
    requires j < |seeds| && !EqIgnoreCase(seeds[j], me)
    ensures p < |PeerHosts(seeds, me)| && PeerHosts(seeds, me)[p] == seeds[j]
  {
    if j == 0 {
      p := 0;
    } else {
      p := EveryOtherSeedIsAPeer(seeds[1..], me, j - 1);
      if !EqIgnoreCase(seeds[0], me) {
        p := p + 1;
      }
    }
  }

  /** An initiator is above every node it did not waive. */
  lemma InitiatorIsAbove(g: Group, events: seq<Event>, k: nat, j: nat)
    requires g.Valid() && PossibleRun(g, events) && k < |events| && InitiatesAt(g, events, k)
    requires j < |g.seeds| && j != events[k].node && !WaivesAt(g, events, k, j)
    ensures g.Above(events[k].node, j)
  {
    var i, turn := events[k].node, events[k].turn;
    var l := Locals(g, events[..k], i);
    var me := g.names[i];
    assert !EqIgnoreCase(g.seeds[j], me);
    var p := EveryOtherSeedIsAPeer(g.seeds, me, j);
    var at := CountedUnlessWaived(l.gone, g.seeds, turn.heard, turn.now, g.goneDwell, p);
    RankIsPosition(g.seeds, g.seeds[j], j);
    RankIsPosition(g.seeds, me, i);
    VerdictMeans(g.hasData[i], Some(i), RoundPeers(l.gone, g.seeds, turn.heard, turn.now, g.goneDwell));
  }

  /** Whatever is stale, lost or wrong about sets, two different nodes issue
      `rs_initiate` in one formation only if one of them had waived the other. */
  lemma TwoInitiatorsNeedAWaiver(g: Group, events: seq<Event>, k: nat, l: nat)
    requires g.Valid() && PossibleRun(g, events) && k < |events| && l < |events|
    requires InitiatesAt(g, events, k) && InitiatesAt(g, events, l) && events[k].node != events[l].node
    ensures WaivesAt(g, events, k, events[l].node) || WaivesAt(g, events, l, events[k].node)
  {
    if !WaivesAt(g, events, k, events[l].node) && !WaivesAt(g, events, l, events[k].node) {
      InitiatorIsAbove(g, events, k, events[l].node);
      InitiatorIsAbove(g, events, l, events[k].node);
    }
  }

  /** Waived nodes take no step after they were waived. */
  predicate WaivedForGood(g: Group, events: seq<Event>)
    requires g.Valid() && PossibleRun(g, events)
  {
    forall k, j, m | 0 <= k < m < |events| && 0 <= j < |g.seeds| && WaivesAt(g, events, k, j) :: events[m].node != j
  }

  /** A node that polled, was deleted and is waived later, as in a scale-down: of two
      different nodes that initiate, the later one had waived the earlier one, which
      takes no further step. No two of them ever live beside each other. */
  lemma ALaterInitiatorOutlivesTheEarlier(g: Group, events: seq<Event>, k: nat, l: nat)
    requires g.Valid() && PossibleRun(g, events) && WaivedForGood(g, events)
    requires k < l < |events| && InitiatesAt(g, events, k) && InitiatesAt(g, events, l) && events[k].node != events[l].node
    ensures WaivesAt(g, events, l, events[k].node)
    ensures forall m | l < m < |events| :: events[m].node != events[k].node
  {
    TwoInitiatorsNeedAWaiver(g, events, k, l);
  }

  /** An initiator holds data if any node does that it did not waive. */
  lemma InitiatorHoldsData(g: Group, events: seq<Event>, k: nat, j: nat)
    requires g.Valid() && PossibleRun(g, events) && k < |events| && InitiatesAt(g, events, k)
    requires j < |g.seeds| && g.hasData[j] && !WaivesAt(g, events, k, j)
    ensures g.hasData[events[k].node]
  {
    if j != events[k].node {
      InitiatorIsAbove(g, events, k, j);
    }
  }

  /** No node waives itself. */
  lemma OwnHostIsNotHeard(g: Group, events: seq<Event>, k: nat)
    requires g.Valid() && PossibleRun(g, events) && k < |events|
    ensures !WaivesAt(g, events, k, events[k].node)
  {
    var i := events[k].node;
    if WaivesAt(g, events, k, i) {
      var heard := events[k].turn.heard;
      var p :| 0 <= p < |heard| && heard[p].host == g.seeds[i];
      var j := PeersAreTheOtherSeeds(g.seeds, g.names[i], p);
    }
  }

  /** Turn by turn: a node that initiates is the one above all others, unless it waived
      that one. */
  lemma TheTopNodeInitiatesUnlessWaived(g: Group, events: seq<Event>, k: nat, top: nat)
    requires g.Valid() && PossibleRun(g, events) && k < |events| && InitiatesAt(g, events, k)
    requires top < |g.seeds| && forall j | 0 <= j < |g.seeds| && j != top :: g.Above(top, j)
    ensures events[k].node == top <==> !WaivesAt(g, events, k, top)
  {
    OwnHostIsNotHeard(g, events, k);
    assert events[k].node != top ==> g.Above(top, events[k].node);
    if events[k].node != top && !WaivesAt(g, events, k, top) {
      InitiatorIsAbove(g, events, k, top);
    }
  }

  /** Two fresh nodes with the default dwells. The first initiates and disappears for
      half an hour; the second waives it and initiates too; then the first is back, a
      member of its own set. */
  function TwoFreshNodes(): Group {
    Group(["a", "b"], ["a", "b"], [false, false], 15, 1800)
  }

  function WrongWaiver(): seq<Event> {
    var answered := [Heard("b", State(RsState(false, None, false)), ExistsOrUnknown)];
    var missing := [Heard("a", Unreachable, Gone)];
    [Polls(0, Turn(NotInitialized, answered, 0)), Polls(0, Turn(NotInitialized, answered, 15)),
     Polls(1, Turn(NotInitialized, missing, 20)), Polls(1, Turn(NotInitialized, missing, 1820)),
     Polls(1, Turn(NotInitialized, missing, 1835)),
     Polls(0, Turn(Joined, [Heard("b", Unreachable, ExistsOrUnknown)], 1900))]
  }

  lemma TwoFreshNodesAreDistinct()
    ensures TwoFreshNodes().Valid()
    ensures PeerHosts(["a", "b"], "a") == ["b"] && PeerHosts(["a", "b"], "b") == ["a"]
    ensures SeedRank(["a", "b"], "a") == Some(0) && SeedRank(["a", "b"], "b") == Some(1)
  {
    var seeds := ["a", "b"];
    assert Fold("a")[0] == 'a' && Fold("b")[0] == 'b';
    assert seeds[1..] == ["b"] && ["b"][1..] == [];
    assert PeerHosts(["b"], "a") == ["b"] && PeerHosts(["b"], "b") == [];
    assert DistinctHosts(seeds);
    RankIsPosition(seeds, "a", 0);
    RankIsPosition(seeds, "b", 1);
  }

  lemma AWrongWaiverMakesTwoSets()
    ensures var g, events := TwoFreshNodes(), WrongWaiver();
            && g.Valid() && PossibleRun(g, events)
            && InitiatesAt(g, events, 1) && InitiatesAt(g, events, 4) && events[1].node != events[4].node
            && events[5].node == events[1].node && events[5].turn.status.Joined?
  {
    var g, events := TwoFreshNodes(), WrongWaiver();
    TwoFreshNodesAreDistinct();
    WrongWaiverIsPossible();
    FirstNodeInitiates();
    SecondNodeInitiates();
  }

  lemma WrongWaiverIsPossible()
    requires TwoFreshNodes().Valid()
    ensures PossibleRun(TwoFreshNodes(), WrongWaiver())
  {
    TwoFreshNodesAreDistinct();
  }

  /** A turn of the first node that the second one answers. */
  lemma AnAnsweredTurn(l: Local, t: Turn)
    requires TwoFreshNodes().Valid() && t.status.NotInitialized? && l.gone == map[]
    requires t.heard == [Heard("b", State(RsState(false, None, false)), ExistsOrUnknown)]
    ensures var c := TwoFreshNodes().ConfigOf(0);
            && TurnVerdict(c, l, t).SafeToInitiate?
            && (l.stableSince.None? ==> LocalAfter(c, l, t) == Local(map[], Some(t.now)))
  {
    TwoFreshNodesAreDistinct();
    var heard := t.heard;
    assert heard[..0] == [] && heard[..1] == heard;
    assert RoundGone(l.gone, heard, t.now) == map[];
    assert RoundPeers(l.gone, ["a", "b"], heard[..0], t.now, 1800) == [];
    var peers := RoundPeers(l.gone, ["a", "b"], heard, t.now, 1800);
    assert peers == [Peer("b", Some(1), StandingOf(heard[0].answer))];
    VerdictMeans(false, Some(0), peers);
  }

  lemma FirstNodeInitiates()
    requires TwoFreshNodes().Valid() && PossibleRun(TwoFreshNodes(), WrongWaiver())
    ensures InitiatesAt(TwoFreshNodes(), WrongWaiver(), 1)
  {
    var g, events := TwoFreshNodes(), WrongWaiver();
    assert events[..1] == [events[0]] && [events[0]][..0] == [];
    AnAnsweredTurn(Local(map[], None), events[0].turn);
    assert Locals(g, events[..1], 0) == Local(map[], Some(0));
    AnAnsweredTurn(Local(map[], Some(0)), events[1].turn);
  }

  /** A turn of the second node that gets no answer, its clock for the first one
      standing at 20 from that turn on. */
  lemma AnUnansweredTurn(l: Local, t: Turn)
    requires TwoFreshNodes().Valid() && t.status.NotInitialized? && t.heard == [Heard("a", Unreachable, Gone)]
    requires l.gone == map["a" := 20] || (l.gone == map[] && t.now == 20)
    ensures var c := TwoFreshNodes().ConfigOf(1);
            && LocalAfter(c, l, t).gone == map["a" := 20]
            && (t.now - 20 < 1800 ==> OutcomeOf(c, l, t).Waits? && LocalAfter(c, l, t).stableSince.None?)
            && (t.now - 20 >= 1800 ==> TurnVerdict(c, l, t).SafeToInitiate?)
  {
    TwoFreshNodesAreDistinct();
    var heard := t.heard;
    assert heard[..0] == [] && heard[..1] == heard;
    assert RoundGone(l.gone, heard, t.now) == map["a" := 20];
    assert WaivedAt(l.gone, heard, t.now, 1800, 0) <==> t.now - 20 >= 1800;
    var peers := RoundPeers(l.gone, ["a", "b"], heard, t.now, 1800);
    assert RoundPeers(l.gone, ["a", "b"], heard[..0], t.now, 1800) == [];
    assert peers == if t.now - 20 >= 1800 then [] else [Peer("a", Some(0), Unknown)];
    VerdictMeans(false, Some(1), peers);
  }

  lemma SecondNodeInitiates()
    requires TwoFreshNodes().Valid() && PossibleRun(TwoFreshNodes(), WrongWaiver())
    ensures InitiatesAt(TwoFreshNodes(), WrongWaiver(), 4)
  {
    var g, events := TwoFreshNodes(), WrongWaiver();
    var gone: map<string, int> := map["a" := 20];
    assert events[..2][..1] == events[..1] && events[..1][..0] == [];
    assert events[..3][..2] == events[..2] && events[..4][..3] == events[..3];
    AnUnansweredTurn(Local(map[], None), events[2].turn);
    assert Locals(g, events[..1], 1) == Local(map[], None);
    assert Locals(g, events[..2], 1) == Local(map[], None);
    assert Locals(g, events[..3], 1) == LocalAfter(g.ConfigOf(1), Local(map[], None), events[2].turn);
    assert Locals(g, events[..3], 1) == Local(gone, None);
    AnUnansweredTurn(Local(gone, None), events[3].turn);
    assert Locals(g, events[..4], 1) == Local(gone, Some(1820));
    AnUnansweredTurn(Local(gone, Some(1820)), events[4].turn);
  }

  // ---------------------------------------------------------------- a complete round

  /** What node i counts when every node answers truthfully and none holds a set. */
  function CompleteRound(g: Group, peers: seq<string>): seq<Heard>
    requires g.Valid()
  {
    seq(|peers|, k requires 0 <= k < |peers| =>
      var rank := SeedRank(g.seeds, peers[k]);
      Heard(peers[k], State(RsState(false, None, rank.Some? && g.hasData[rank.value])), ExistsOrUnknown))
  }

  function CompleteVerdict(g: Group, i: nat): Verdict
    requires g.Valid() && i < |g.seeds|
  {
    var heard := CompleteRound(g, PeerHosts(g.seeds, g.names[i]));
    TurnVerdict(g.ConfigOf(i), Local(map[], None), Turn(NotInitialized, heard, 0))
  }

  lemma {:induction false} PeersAreTheOtherSeeds(seeds: seq<string>, me: string, p: nat) returns (j: nat)
    requires p < |PeerHosts(seeds, me)|
    ensures j < |seeds| && seeds[j] == PeerHosts(seeds, me)[p] && !EqIgnoreCase(seeds[j], me)
  {
    if EqIgnoreCase(seeds[0], me) {
      j := PeersAreTheOtherSeeds(seeds[1..], me, p);
      j := j + 1;
    } else if p == 0 {
      j := 0;
    } else {
      j := PeersAreTheOtherSeeds(seeds[1..], me, p - 1);
      j := j + 1;
    }
  }

  lemma {:induction false} AnsweredPeersAllCount(gone: map<string, int>, seeds: seq<string>, heard: seq<Heard>, now: int, dwell: nat)
    requires forall k | 0 <= k < |heard| :: !heard[k].Missing()
    ensures var peers := RoundPeers(gone, seeds, heard, now, dwell);
            && |peers| == |heard|
            && forall k | 0 <= k < |heard| ::
                 peers[k] == Peer(heard[k].host, SeedRank(seeds, heard[k].host), StandingOf(heard[k].answer))
  {
    if heard != [] {
      var n := |heard| - 1;
      assert heard[..n + 1] == heard;
      AnsweredPeersAllCount(gone, seeds, heard[..n], now, dwell);
    }
  }

  function AnsweredPeer(g: Group, j: nat): Peer
    requires g.Valid() && j < |g.seeds|
  {
    Peer(g.seeds[j], Some(j), NoSet(g.hasData[j]))
  }

  /** The peers are the answered nodes other than i, every one of them and no other. */
  ghost predicate ListsTheOthers(g: Group, i: nat, peers: seq<Peer>)
    requires g.Valid() && i < |g.seeds|
  {
    && (forall p | 0 <= p < |peers| :: exists j | 0 <= j < |g.seeds| && j != i :: peers[p] == AnsweredPeer(g, j))
    && (forall j | 0 <= j < |g.seeds| && j != i :: AnsweredPeer(g, j) in peers)
  }

  lemma CompletePeersAreTheOthers(g: Group, i: nat)
    requires g.Valid() && i < |g.seeds|
    ensures ListsTheOthers(g, i, RoundPeers(map[], g.seeds, CompleteRound(g, PeerHosts(g.seeds, g.names[i])), 0, g.goneDwell))
  {
    var me := g.names[i];
    var heard := CompleteRound(g, PeerHosts(g.seeds, me));
    AnsweredPeersAllCount(map[], g.seeds, heard, 0, g.goneDwell);
    var peers := RoundPeers(map[], g.seeds, heard, 0, g.goneDwell);
    forall j | 0 <= j < |g.seeds| && j != i
      ensures AnsweredPeer(g, j) in peers
    {
      assert !EqIgnoreCase(g.seeds[j], me);
      var p := EveryOtherSeedIsAPeer(g.seeds, me, j);
      RankIsPosition(g.seeds, g.seeds[j], j);
      assert peers[p] == AnsweredPeer(g, j);
    }
    forall p | 0 <= p < |peers|
      ensures exists j | 0 <= j < |g.seeds| && j != i :: peers[p] == AnsweredPeer(g, j)
    {
      var j := PeersAreTheOtherSeeds(g.seeds, me, p);
      RankIsPosition(g.seeds, g.seeds[j], j);
      assert j != i && peers[p] == AnsweredPeer(g, j);
    }
  }

  lemma VerdictFollowsTheOrder(g: Group, i: nat, peers: seq<Peer>)
    requires g.Valid() && i < |g.seeds| && ListsTheOthers(g, i, peers)
    ensures var verdict := Decide(g.hasData[i], Some(i), peers);
            && (verdict.SafeToInitiate? <==> forall j | 0 <= j < |g.seeds| && j != i :: !g.Above(j, i))
            && (!verdict.SafeToInitiate? ==>
                  verdict.DeferTo? && exists j | 0 <= j < |g.seeds| :: g.Above(j, i) && verdict.host == g.seeds[j])
  {
    var verdict := Decide(g.hasData[i], Some(i), peers);
    VerdictMeans(g.hasData[i], Some(i), peers);
    if verdict.SafeToInitiate? {
      forall j | 0 <= j < |g.seeds| && j != i ensures !g.Above(j, i) {
        assert AnsweredPeer(g, j) in peers;
      }
    } else {
      assert verdict.DeferTo?;
      var p :| 0 <= p < |peers| && peers[p].host == verdict.host && peers[p].standing.NoSet?
               && Outranks(peers[p].standing.hasData, peers[p].rank, g.hasData[i], Some(i));
      var j :| 0 <= j < |g.seeds| && j != i && peers[p] == AnsweredPeer(g, j);
      assert g.Above(j, i);
    }
  }

  /** Node i's complete verdict, in terms of the order: safe exactly when nobody is
      above it, else deferring to a seed that is. */
  lemma CompleteVerdictFollowsTheOrder(g: Group, i: nat)
    requires g.Valid() && i < |g.seeds|
    ensures CompleteVerdict(g, i).SafeToInitiate? <==> forall j | 0 <= j < |g.seeds| && j != i :: !g.Above(j, i)
    ensures !CompleteVerdict(g, i).SafeToInitiate? ==>
              CompleteVerdict(g, i).DeferTo?
              && exists j | 0 <= j < |g.seeds| :: g.Above(j, i) && CompleteVerdict(g, i).host == g.seeds[j]
  {
    RankIsPosition(g.seeds, g.names[i], i);
    CompletePeersAreTheOthers(g, i);
    VerdictFollowsTheOrder(g, i, RoundPeers(map[], g.seeds, CompleteRound(g, PeerHosts(g.seeds, g.names[i])), 0, g.goneDwell));
  }

  /** The node that precedes all others: the first one that holds data, or the first. */
  lemma {:induction false} SomeNodeIsAboveAll(g: Group, n: nat) returns (w: nat)
    requires g.Valid() && 0 < n <= |g.seeds|
    ensures w < n && forall j | 0 <= j < n && j != w :: g.Above(w, j)
  {
    w := 0;
    if n > 1 {
      var v := SomeNodeIsAboveAll(g, n - 1);
      w := if g.Above(n - 1, v) then n - 1 else v;
      forall j | 0 <= j < n && j != w ensures g.Above(w, j) {
        assert j < n - 1 && j != v ==> g.Above(v, j);
      }
    }
  }

  /** In a complete round exactly one node may initiate; every other defers to a
      node strictly above it. */
  lemma ExactlyOneWinner(g: Group) returns (w: nat)
    requires g.Valid() && g.seeds != []
    ensures w < |g.seeds| && CompleteVerdict(g, w).SafeToInitiate?
    ensures forall i | 0 <= i < |g.seeds| && i != w ::
              && CompleteVerdict(g, i).DeferTo?
              && exists j | 0 <= j < |g.seeds| :: g.Above(j, i) && CompleteVerdict(g, i).host == g.seeds[j]
  {
    w := SomeNodeIsAboveAll(g, |g.seeds|);
    CompleteVerdictFollowsTheOrder(g, w);
    forall j | 0 <= j < |g.seeds| && j != w ensures !g.Above(j, w) {
      assert g.Above(w, j);
    }
    forall i | 0 <= i < |g.seeds| && i != w
      ensures CompleteVerdict(g, i).DeferTo?
      ensures exists j | 0 <= j < |g.seeds| :: g.Above(j, i) && CompleteVerdict(g, i).host == g.seeds[j]
    {
      CompleteVerdictFollowsTheOrder(g, i);
      assert g.Above(w, i);
    }
  }
}
