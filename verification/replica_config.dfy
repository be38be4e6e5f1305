/** Editing the replica set config, and the majorities an edit must not separate.

    A config is edited by reading it, building the next version and handing it to
    the primary, which takes it only if its version is above the one it holds. Any
    number of editors may work at once from configs they read earlier. */
module ReplicaConfig {
  import opened Wrappers
  import opened Text

  datatype Element = Doc(id: Option<int>, host: Option<string>, priority: int, votes: int) | NotADocument
  datatype Config = Config(name: string, version: Option<int>, term: Option<int>,
                           members: Option<seq<Element>>, settings: string)

  predicate IsHost(e: Element, host: string) {
    e.Doc? && e.host.Some? && EqIgnoreCase(e.host.value, host)
  }

  function MaxId(members: seq<Element>): Option<int> {
    if members == [] then None
    else
      var rest := MaxId(members[..|members| - 1]);
      var last := members[|members| - 1];
      if last.Doc? && last.id.Some? && (rest.None? || rest.value < last.id.value) then last.id else rest
  }

  function Without(members: seq<Element>, host: string): seq<Element> {
    if members == [] then []
    else
      var rest := Without(members[..|members| - 1], host);
      var last := members[|members| - 1];
      if IsHost(last, host) then rest else rest + [last]
  }

  function Added(members: seq<Element>, host: string): seq<Element> {
    var top := MaxId(members);
    members + [Doc(Some(if top.Some? then top.value + 1 else 0), Some(host), 1, 1)]
  }

  /** The next config around already edited members. */
  function NextConfig(current: Config, edited: seq<Element>): Result<Config> {
    if current.version.None? then Err("config has no version")
    else if current.members.None? then Err("config has no members")
    else if edited == [] then Err("refusing to produce a config with no members")
    else Ok(current.(version := Some(current.version.value + 1), term := None, members := Some(edited)))
  }

  function ConfigWithMemberAdded(current: Config, host: string): Result<Config> {
    NextConfig(current, if current.members.Some? then Added(current.members.value, host) else [])
  }

  function ConfigWithMemberRemoved(current: Config, host: string): Result<Config> {
    NextConfig(current, if current.members.Some? then Without(current.members.value, host) else [])
  }

  // ---------------------------------------------------------------- well-formed configs

  predicate Distinct<T(==)>(s: seq<T>) {
    forall i, j | 0 <= i < j < |s| :: s[i] != s[j]
  }

  predicate Complete(c: Config) {
    && c.version.Some? && c.members.Some? && c.members.value != []
    && forall i | 0 <= i < |c.members.value| ::
         c.members.value[i].Doc? && c.members.value[i].id.Some? && c.members.value[i].host.Some?
  }

  function Members(c: Config): seq<Element>
    requires Complete(c)
  {
    c.members.value
  }

  function Hosts(c: Config): (hosts: seq<string>)
    requires Complete(c)
    ensures |hosts| == |Members(c)|
  {
    seq(|Members(c)|, i requires 0 <= i < |Members(c)| => Fold(Members(c)[i].host.value))
  }

  function Ids(c: Config): (ids: seq<int>)
    requires Complete(c)
    ensures |ids| == |Members(c)|
  {
    seq(|Members(c)|, i requires 0 <= i < |Members(c)| => Members(c)[i].id.value)
  }

  function HostSet(c: Config): set<string>
    requires Complete(c)
  {
    set h | h in Hosts(c)
  }

  predicate WellFormed(c: Config) {
    Complete(c) && Distinct(Hosts(c)) && Distinct(Ids(c))
  }

  lemma {:induction false} MaxIdIsAbove(members: seq<Element>)
    ensures forall i | 0 <= i < |members| && members[i].Doc? && members[i].id.Some? ::
              MaxId(members).Some? && members[i].id.value <= MaxId(members).value
    ensures MaxId(members).Some? ==> exists i | 0 <= i < |members| :: members[i].Doc? && members[i].id == MaxId(members)
  {
    if members != [] {
      var shorter := members[..|members| - 1];
      MaxIdIsAbove(shorter);
      if MaxId(members) == MaxId(shorter) && MaxId(members).Some? {
        var i :| 0 <= i < |shorter| && shorter[i].Doc? && shorter[i].id == MaxId(shorter);
        assert members[i] == shorter[i];
      }
    }
  }

  lemma {:induction false} WithoutKeepsTheRest(members: seq<Element>, host: string) returns (from: seq<nat>)
    ensures var rest := Without(members, host);
            && |from| == |rest|
            && (forall k | 0 <= k < |from| :: from[k] < |members| && rest[k] == members[from[k]] && !IsHost(rest[k], host))
            && (forall j, k | 0 <= j < k < |from| :: from[j] < from[k])
            && (forall i | 0 <= i < |members| && !IsHost(members[i], host) :: i in from)
  {
    from := [];
    if members != [] {
      var n := |members| - 1;
      from := WithoutKeepsTheRest(members[..n], host);
      if !IsHost(members[n], host) {
        from := from + [n];
        assert from[|from| - 1] == n;
      }
      forall i | 0 <= i < |members| && !IsHost(members[i], host) ensures i in from {
        if i < n { assert members[..n][i] == members[i]; }
      }
    }
  }

  /** The new member of any list: a voter of priority 1 with the next free id. */
  lemma AddedIsAFreshVoter(members: seq<Element>, host: string)
    ensures |Added(members, host)| == |members| + 1 && Added(members, host)[..|members|] == members
    ensures var last := Added(members, host)[|members|];
            && last.Doc? && last.host == Some(host) && last.priority == 1 && last.votes == 1 && last.id.Some?
            && (forall e | e in members && e.Doc? && e.id.Some? :: e.id.value < last.id.value)
            && (if exists e | e in members :: e.Doc? && e.id.Some?
                then exists e | e in members :: e.Doc? && e.id == Some(last.id.value - 1)
                else last.id.value == 0)
  {
    MaxIdIsAbove(members);
    if e :| e in members && e.Doc? && e.id.Some? {
      var i :| 0 <= i < |members| && members[i].Doc? && members[i].id == MaxId(members);
      assert members[i] in members;
    }
  }

  /** An edit is refused exactly for a config without a version or members, or for a
      removal that leaves nobody; whatever is not the host stays, in order. */
  lemma EditsAreRefusedExactly(c: Config, host: string) returns (from: seq<nat>)
    ensures ConfigWithMemberAdded(c, host).Ok? <==> c.version.Some? && c.members.Some?
    ensures ConfigWithMemberRemoved(c, host).Ok? <==>
              && c.version.Some? && c.members.Some?
              && exists i | 0 <= i < |c.members.value| :: !(c.members.value[i].Doc? && c.members.value[i].host.Some?
                                                            && EqIgnoreCase(c.members.value[i].host.value, host))
    ensures ConfigWithMemberRemoved(c, host).Ok? ==>
              var d := ConfigWithMemberRemoved(c, host).value;
              && d == c.(version := Some(c.version.value + 1), term := None, members := d.members)
              && d.members.Some? && |from| == |d.members.value|
              && (forall k | 0 <= k < |from| :: from[k] < |c.members.value| && d.members.value[k] == c.members.value[from[k]])
              && (forall j, k | 0 <= j < k < |from| :: from[j] < from[k])
              && (forall i | 0 <= i < |c.members.value| :: i in from <==> !IsHost(c.members.value[i], host))
  {
    from := [];
    if c.members.Some? {
      from := WithoutKeepsTheRest(c.members.value, host);
      if Without(c.members.value, host) != [] {
        assert !IsHost(c.members.value[from[0]], host);
      }
    }
  }

  /** Adding a host nobody is named by keeps a config well formed and adds exactly it. */
  lemma AddKeepsWellFormed(c: Config, host: string)
    requires WellFormed(c) && Fold(host) !in HostSet(c)
    ensures var next := ConfigWithMemberAdded(c, host);
            && next.Ok? && WellFormed(next.value)
            && next.value.version == Some(c.version.value + 1)
            && HostSet(next.value) == HostSet(c) + {Fold(host)}
            && Members(next.value)[..|Members(c)|] == Members(c)
            && next.value.name == c.name && next.value.settings == c.settings && next.value.term.None?
  {
    var next := ConfigWithMemberAdded(c, host).value;
    MaxIdIsAbove(Members(c));
    assert Hosts(next) == Hosts(c) + [Fold(host)];
    forall i | 0 <= i < |Ids(c)| ensures Ids(next)[i] == Ids(c)[i] < Ids(next)[|Ids(c)|] {
      assert Members(c)[i].id.Some?;
    }
    assert Fold(host) !in Hosts(c);
  }

  /** A config made of some members of another, in order, is well formed again. */
  lemma PartKeepsWellFormed(c: Config, d: Config, from: seq<nat>)
    requires WellFormed(c) && d.version.Some? && d.members.Some? && |Members(c)| >= |d.members.value| == |from| > 0
    requires forall k | 0 <= k < |from| :: from[k] < |Members(c)| && d.members.value[k] == Members(c)[from[k]]
    requires forall j, k | 0 <= j < k < |from| :: from[j] < from[k]
    ensures WellFormed(d)
    ensures forall k | 0 <= k < |from| :: Hosts(d)[k] == Hosts(c)[from[k]]
  {
    forall k | 0 <= k < |from|
      ensures d.members.value[k].Doc? && d.members.value[k].id.Some? && d.members.value[k].host.Some?
    {
      assert Members(c)[from[k]].Doc?;
    }
    assert Complete(d);
    forall j, k | 0 <= j < k < |from|
      ensures Hosts(d)[j] != Hosts(d)[k] && Ids(d)[j] != Ids(d)[k]
    {
      assert Hosts(c)[from[j]] != Hosts(c)[from[k]] && Ids(c)[from[j]] != Ids(c)[from[k]];
    }
  }

  lemma WithoutRemovesTheHost(c: Config, d: Config, host: string)
    requires WellFormed(c) && WellFormed(d) && Members(d) == Without(Members(c), host)
    ensures HostSet(d) == HostSet(c) - {Fold(host)}
  {
    var from := WithoutKeepsTheRest(Members(c), host);
    forall k | 0 <= k < |from| ensures Hosts(d)[k] in HostSet(c) && Hosts(d)[k] != Fold(host) {
      assert !IsHost(Members(d)[k], host);
      assert Hosts(d)[k] == Hosts(c)[from[k]];
    }
    forall h | h in HostSet(c) - {Fold(host)} ensures h in HostSet(d) {
      var i :| 0 <= i < |Hosts(c)| && Hosts(c)[i] == h;
      assert !IsHost(Members(c)[i], host);
      var k :| 0 <= k < |from| && from[k] == i;
      assert Hosts(d)[k] == h;
    }
  }

  lemma NobodyLeft(c: Config, host: string)
    requires WellFormed(c)
    ensures Without(Members(c), host) == [] <==> HostSet(c) == {Fold(host)}
  {
    var from := WithoutKeepsTheRest(Members(c), host);
    if Without(Members(c), host) == [] {
      forall i | 0 <= i < |Hosts(c)| ensures Hosts(c)[i] == Fold(host) {
        assert !IsHost(Members(c)[i], host) ==> i in from;
      }
      assert Hosts(c)[0] in HostSet(c);
    } else {
      assert !IsHost(Members(c)[from[0]], host);
      assert Hosts(c)[from[0]] in HostSet(c) && Hosts(c)[from[0]] != Fold(host);
    }
  }

  /** Removing a host keeps a config well formed and removes exactly it; it is
      refused exactly when nobody would be left. */
  lemma RemoveKeepsWellFormed(c: Config, host: string)
    requires WellFormed(c)
    ensures var next := ConfigWithMemberRemoved(c, host);
            && (next.Ok? <==> HostSet(c) != {Fold(host)})
            && (next.Ok? ==>
                  && WellFormed(next.value)
                  && next.value.version == Some(c.version.value + 1)
                  && HostSet(next.value) == HostSet(c) - {Fold(host)}
                  && next.value.name == c.name && next.value.settings == c.settings && next.value.term.None?)
  {
    NobodyLeft(c, host);
    var next := ConfigWithMemberRemoved(c, host);
    if next.Ok? {
      var from := WithoutKeepsTheRest(Members(c), host);
      IncreasingFits(from, |Members(c)|);
      PartKeepsWellFormed(c, next.value, from);
      WithoutRemovesTheHost(c, next.value, host);
    }
  }

  lemma {:induction false} IncreasingFits(from: seq<nat>, n: nat)
    requires forall k | 0 <= k < |from| :: from[k] < n
    requires forall j, k | 0 <= j < k < |from| :: from[j] < from[k]
    ensures |from| <= n
  {
    if from != [] {
      var last := |from| - 1;
      IncreasingFits(from[..last], from[last]);
    }
  }

  /** Removing what was just added gives the members back, two versions on. */
  lemma RemoveUndoesAdd(c: Config, host: string)
    requires WellFormed(c) && Fold(host) !in HostSet(c)
    ensures var added := ConfigWithMemberAdded(c, host).value;
            ConfigWithMemberRemoved(added, host) == Ok(c.(version := Some(c.version.value + 2), term := None))
  {
    AddKeepsWellFormed(c, host);
    var members := Added(Members(c), host);
    assert members[..|members| - 1] == Members(c);
    forall i | 0 <= i < |Members(c)| ensures !IsHost(Members(c)[i], host) {
      assert Hosts(c)[i] in HostSet(c);
    }
    NothingToRemove(Members(c), host);
    assert Without(members, host) == Members(c);
  }

  lemma {:induction false} NothingToRemove(members: seq<Element>, host: string)
    requires forall i | 0 <= i < |members| :: !IsHost(members[i], host)
    ensures Without(members, host) == members
  {
    if members != [] {
      NothingToRemove(members[..|members| - 1], host);
    }
  }

  /** An id is unique inside a config only: the highest one, once removed, is given
      to the next member. */
  lemma ARemovedIdMayComeBack(c: Config, host: string, other: string)
    requires WellFormed(c) && Fold(host) !in HostSet(c) && Fold(other) !in HostSet(c)
    ensures var added := ConfigWithMemberAdded(c, host).value;
            var removed := ConfigWithMemberRemoved(added, host);
            && removed.Ok? && ConfigWithMemberAdded(removed.value, other).Ok?
            && var again := ConfigWithMemberAdded(removed.value, other).value;
               WellFormed(added) && WellFormed(again) && Ids(again) == Ids(added)
  {
    AddKeepsWellFormed(c, host);
    RemoveUndoesAdd(c, host);
    var removed := ConfigWithMemberRemoved(ConfigWithMemberAdded(c, host).value, host).value;
    assert Hosts(removed) == Hosts(c) && Ids(removed) == Ids(c);
    AddKeepsWellFormed(removed, other);
    AddKeepsWellFormed(c, other);
  }

  // ---------------------------------------------------------------- concurrent editors

  datatype World = World(config: Config, proposals: set<Config>)

  datatype Step =
    | ProposeAdd(host: string)     // read the config, find the host unnamed, build the next one
    | ProposeRemove(host: string)
    | Submit(proposal: Config, term: int)
    | AutoReconfig(term: int)      // the primary's own bump, members unchanged

  predicate Enabled(w: World, step: Step) {
    match step
    case ProposeAdd(host) =>
      ConfigWithMemberAdded(w.config, host).Ok?
      && (w.config.members.Some? ==> forall i | 0 <= i < |w.config.members.value| :: !IsHost(w.config.members.value[i], host))
    case ProposeRemove(host) => ConfigWithMemberRemoved(w.config, host).Ok?
    case Submit(proposal, _) => proposal in w.proposals && proposal.version.Some?
    case AutoReconfig(_) => true
  }

  function Apply(w: World, step: Step): World {
    match step
    case ProposeAdd(host) =>
      var next := ConfigWithMemberAdded(w.config, host);
      if next.Ok? then w.(proposals := w.proposals + {next.value}) else w
    case ProposeRemove(host) =>
      var next := ConfigWithMemberRemoved(w.config, host);
      if next.Ok? then w.(proposals := w.proposals + {next.value}) else w
    case Submit(proposal, term) =>
      if proposal.version.Some? && w.config.version.Some? && proposal.version.value > w.config.version.value
      then w.(config := proposal.(term := Some(term))) else w
    case AutoReconfig(term) =>
      if w.config.version.Some?
      then w.(config := w.config.(version := Some(w.config.version.value + 1), term := Some(term))) else w
  }

  function Run(w: World, steps: seq<Step>): World {
    if steps == [] then w else Apply(Run(w, steps[..|steps| - 1]), steps[|steps| - 1])
  }

  predicate Possible(w: World, steps: seq<Step>) {
    steps == [] ||
    (Possible(w, steps[..|steps| - 1]) && Enabled(Run(w, steps[..|steps| - 1]), steps[|steps| - 1]))
  }

  /** What `replSetInitiate` creates: this node alone. */
  function Initiated(name: string, host: string): World {
    World(Config(name, Some(1), Some(1), Some([Doc(Some(0), Some(host), 1, 1)]), ""), {})
  }

  /** The two configs differ by at most one host. */
  predicate OneApart(c: Config, d: Config)
    requires Complete(c) && Complete(d)
  {
    || HostSet(d) == HostSet(c)
    || (exists h | h in HostSet(d) :: h !in HostSet(c) && HostSet(d) == HostSet(c) + {h})
    || (exists h | h in HostSet(c) :: HostSet(d) == HostSet(c) - {h})
  }

  predicate FollowsFrom(c: Config, p: Config) {
    WellFormed(c) && WellFormed(p) && p.version == Some(c.version.value + 1) && OneApart(c, p)
  }

  predicate Invariant(w: World) {
    && WellFormed(w.config)
    && forall p | p in w.proposals ::
         p.version.Some? && (p.version.value <= w.config.version.value || FollowsFrom(w.config, p))
  }

  /** Every step keeps configs well formed, and a config that takes the place of
      another is one edit away from it and one version on: an edit built from an
      outdated config never gets in. */
  lemma StepMovesByOneEdit(w: World, step: Step)
    requires Invariant(w) && Enabled(w, step)
    ensures Invariant(Apply(w, step))
    ensures Apply(w, step).config == w.config || FollowsFrom(w.config, Apply(w, step).config)
  {
    match step
    case ProposeAdd(host) =>
      forall i | 0 <= i < |Hosts(w.config)| ensures Hosts(w.config)[i] != Fold(host) {
        assert !IsHost(Members(w.config)[i], host);
      }
      AddKeepsWellFormed(w.config, host);
      var next := ConfigWithMemberAdded(w.config, host).value;
      assert Fold(host) in HostSet(next);
      assert FollowsFrom(w.config, next);
    case ProposeRemove(host) =>
      RemoveKeepsWellFormed(w.config, host);
      var next := ConfigWithMemberRemoved(w.config, host).value;
      if Fold(host) !in HostSet(w.config) { assert HostSet(next) == HostSet(w.config); }
      assert FollowsFrom(w.config, next);
    case Submit(proposal, term) =>
      if proposal.version.value > w.config.version.value {
        var next := proposal.(term := Some(term));
        assert Hosts(next) == Hosts(proposal) && Ids(next) == Ids(proposal);
        assert FollowsFrom(w.config, next);
      }
    case AutoReconfig(term) =>
      var next := Apply(w, step).config;
      assert Hosts(next) == Hosts(w.config) && Ids(next) == Ids(w.config);
      assert FollowsFrom(w.config, next);
  }

  /** Every config reachable from a single-node initiate is well formed. */
  lemma {:induction false} EveryReachableConfigIsWellFormed(name: string, host: string, steps: seq<Step>)
    requires Possible(Initiated(name, host), steps)
    ensures Invariant(Run(Initiated(name, host), steps))
  {
    if steps != [] {
      EveryReachableConfigIsWellFormed(name, host, steps[..|steps| - 1]);
      StepMovesByOneEdit(Run(Initiated(name, host), steps[..|steps| - 1]), steps[|steps| - 1]);
    }
  }

  // ---------------------------------------------------------------- majorities

  datatype RsMember = RsMember(host: string, state: int, healthy: bool, isSelf: bool)

  function CountReachable(members: seq<RsMember>): nat {
    if members == [] then 0
    else CountReachable(members[..|members| - 1])
         + (if members[|members| - 1].healthy || members[|members| - 1].isSelf then 1 else 0)
  }

  predicate HasMajority(members: seq<RsMember>) {
    members != [] && CountReachable(members) * 2 > |members|
  }

  function Reachable(members: seq<RsMember>): set<string> {
    set i | 0 <= i < |members| && (members[i].healthy || members[i].isSelf) :: Fold(members[i].host)
  }

  /** A node's status rows over config `c`: one row per member, in order. */
  predicate ViewOf(members: seq<RsMember>, c: Config) {
    && Complete(c) && |members| == |Members(c)|
    && forall i | 0 <= i < |members| :: Fold(members[i].host) == Hosts(c)[i]
  }

  lemma {:induction false} CountIsTheSizeOfReachable(members: seq<RsMember>)
    requires forall i, j | 0 <= i < j < |members| :: !EqIgnoreCase(members[i].host, members[j].host)
    ensures |Reachable(members)| == CountReachable(members)
  {
    if members != [] {
      var n := |members| - 1;
      var shorter, last := members[..n], members[n];
      CountIsTheSizeOfReachable(shorter);
      ReachableOfMore(members);
      if last.healthy || last.isSelf {
        assert Fold(last.host) !in Reachable(shorter);
      }
    }
  }

  lemma ReachableOfMore(members: seq<RsMember>)
    requires members != []
    ensures var last := members[|members| - 1];
            Reachable(members) == Reachable(members[..|members| - 1])
                                  + if last.healthy || last.isSelf then {Fold(last.host)} else {}
  {
  }

  lemma {:induction false} DistinctSize<T>(s: seq<T>)
    requires Distinct(s)
    ensures |set x | x in s| == |s|
  {
    if s != [] {
      var n := |s| - 1;
      DistinctSize(s[..n]);
      assert (set x | x in s) == (set x | x in s[..n]) + {s[n]};
      assert s[n] !in s[..n];
    }
  }

  lemma DisjointPartsFit<T>(q: set<T>, r: set<T>, whole: set<T>)
    requires q <= whole && r <= whole && q * r == {}
    ensures |q| + |r| <= |whole|
  {
    assert |q + r| == |q| + |r| - |q * r|;
    SubsetSize(q + r, whole);
  }

  lemma SubsetSize<T>(small: set<T>, big: set<T>)
    requires small <= big
    ensures |small| <= |big|
  {
    assert big == small + (big - small);
  }

  /** A majority view of a config reaches more than half of its hosts. */
  lemma MajorityOfTheConfig(members: seq<RsMember>, c: Config)
    requires WellFormed(c) && ViewOf(members, c)
    ensures HasMajority(members) <==> 2 * |Reachable(members)| > |HostSet(c)|
    ensures Reachable(members) <= HostSet(c)
  {
    forall i, j | 0 <= i < j < |members| ensures !EqIgnoreCase(members[i].host, members[j].host) {
      assert Hosts(c)[i] != Hosts(c)[j];
    }
    CountIsTheSizeOfReachable(members);
    DistinctSize(Hosts(c));
  }

  /** Two majorities of the same config, or of a config and the one that follows it,
      share a member. */
  lemma MajoritiesMeet(c: Config, d: Config, v: seq<RsMember>, w: seq<RsMember>)
    requires WellFormed(c) && WellFormed(d) && OneApart(c, d)
    requires ViewOf(v, c) && ViewOf(w, d) && HasMajority(v) && HasMajority(w)
    ensures exists h :: h in Reachable(v) && h in Reachable(w)
  {
    MajorityOfTheConfig(v, c);
    MajorityOfTheConfig(w, d);
    var cs, ds := HostSet(c), HostSet(d);
    var whole := if cs <= ds then ds else cs;
    assert cs <= whole && ds <= whole && (|whole| <= |cs| + 1) && (|whole| <= |ds| + 1) && (whole == cs || whole == ds) by {
      if !(cs <= ds) {
        var h :| h in cs && ds == cs - {h};
        assert cs == ds + {h};
      }
    }
    if Reachable(v) * Reachable(w) == {} {
      DisjointPartsFit(Reachable(v), Reachable(w), whole);
      assert false;
    }
    var h :| h in Reachable(v) * Reachable(w);
  }

  /** So over every run no two majorities of one config, or on either side of an
      edit, can act without a common member. */
  lemma NoEditSplitsTheMajority(name: string, host: string, steps: seq<Step>, v: seq<RsMember>, w: seq<RsMember>)
    requires steps != [] && Possible(Initiated(name, host), steps)
    requires HasMajority(v) && HasMajority(w)
    requires var before := Run(Initiated(name, host), steps[..|steps| - 1]).config; ViewOf(v, before)
    requires var before := Run(Initiated(name, host), steps[..|steps| - 1]).config;
             ViewOf(w, before) || ViewOf(w, Run(Initiated(name, host), steps).config)
    ensures exists h :: h in Reachable(v) && h in Reachable(w)
  {
    EveryReachableConfigIsWellFormed(name, host, steps[..|steps| - 1]);
    var before := Run(Initiated(name, host), steps[..|steps| - 1]);
    StepMovesByOneEdit(before, steps[|steps| - 1]);
    if ViewOf(w, before.config) {
      MajoritiesMeet(before.config, before.config, v, w);
    } else {
      MajoritiesMeet(before.config, Run(Initiated(name, host), steps).config, v, w);
    }
  }

  // ---------------------------------------------------------------- ready for a rotation

  function Present(members: seq<RsMember>, gone: set<string>): seq<RsMember> {
    if members == [] then []
    else Present(members[..|members| - 1], gone)
         + (if members[|members| - 1].host in gone then [] else [members[|members| - 1]])
  }

  function CountPrimaries(members: seq<RsMember>): nat {
    if members == [] then 0
    else CountPrimaries(members[..|members| - 1]) + (if members[|members| - 1].state == 1 then 1 else 0)
  }

  predicate EachIsUp(present: seq<RsMember>) {
    forall i | 0 <= i < |present| :: present[i].healthy && present[i].state in {1, 2}
  }

  predicate HealthySet(members: seq<RsMember>, gone: set<string>) {
    var present := Present(members, gone);
    && present != [] && CountPrimaries(present) == 1
    && EachIsUp(present) && HasMajority(members)
  }

  lemma {:induction false} PresentAreTheOthers(members: seq<RsMember>, gone: set<string>)
    ensures forall m :: m in Present(members, gone) <==> m in members && m.host !in gone
  {
    if members != [] {
      PresentAreTheOthers(members[..|members| - 1], gone);
      assert members == members[..|members| - 1] + [members[|members| - 1]];
    }
  }

  /** A member that is not gone, a primary. */
  predicate PresentPrimary(members: seq<RsMember>, gone: set<string>, i: int) {
    0 <= i < |members| && members[i].host !in gone && members[i].state == 1
  }

  function PresentPrimaries(members: seq<RsMember>, gone: set<string>): set<int> {
    set i | 0 <= i < |members| && PresentPrimary(members, gone, i)
  }

  lemma PresentPrimariesOfMore(members: seq<RsMember>, gone: set<string>)
    requires members != []
    ensures var n := |members| - 1;
            PresentPrimaries(members, gone)
            == PresentPrimaries(members[..n], gone) + (if PresentPrimary(members, gone, n) then {n} else {})
  {
    var n := |members| - 1;
    assert forall i | 0 <= i < n :: PresentPrimary(members[..n], gone, i) == PresentPrimary(members, gone, i);
  }

  lemma CountOfMore(members: seq<RsMember>, m: RsMember)
    ensures CountPrimaries(members + [m]) == CountPrimaries(members) + if m.state == 1 then 1 else 0
  {
    assert (members + [m])[..|members|] == members;
  }

  lemma {:induction false} CountIsTheSizeOfPresentPrimaries(members: seq<RsMember>, gone: set<string>)
    ensures |PresentPrimaries(members, gone)| == CountPrimaries(Present(members, gone))
  {
    if members != [] {
      var n := |members| - 1;
      var before := Present(members[..n], gone);
      CountIsTheSizeOfPresentPrimaries(members[..n], gone);
      PresentPrimariesOfMore(members, gone);
      if members[n].host in gone {
        assert Present(members, gone) == before;
      } else {
        assert Present(members, gone) == before + [members[n]];
        CountOfMore(before, members[n]);
      }
    }
  }

  predicate IsUp(m: RsMember) {
    m.healthy && (m.state == 1 || m.state == 2)
  }

  predicate AllUp(members: seq<RsMember>, gone: set<string>) {
    forall m | m in members && m.host !in gone :: IsUp(m)
  }

  lemma PresentAt(members: seq<RsMember>, gone: set<string>, i: nat)
    requires i < |Present(members, gone)|
    ensures Present(members, gone)[i] in members && Present(members, gone)[i].host !in gone
  {
    PresentAreTheOthers(members, gone);
    assert Present(members, gone)[i] in Present(members, gone);
  }

  lemma PlaceAmongPresent(members: seq<RsMember>, gone: set<string>, m: RsMember) returns (i: nat)
    requires m in members && m.host !in gone
    ensures i < |Present(members, gone)| && Present(members, gone)[i] == m
  {
    PresentAreTheOthers(members, gone);
    var present := Present(members, gone);
    assert m in present;
    i :| 0 <= i < |present| && present[i] == m;
  }

  lemma PresentAreUp(members: seq<RsMember>, gone: set<string>)
    ensures AllUp(members, gone) <==> EachIsUp(Present(members, gone))
  {
    var present := Present(members, gone);
    if AllUp(members, gone) {
      forall i | 0 <= i < |present| ensures present[i].healthy && present[i].state in {1, 2} {
        PresentAt(members, gone, i);
        assert IsUp(present[i]);
      }
      assert EachIsUp(present);
    }
    if EachIsUp(present) {
      forall m | m in members && m.host !in gone ensures IsUp(m) {
        var i := PlaceAmongPresent(members, gone, m);
        assert present[i].healthy && present[i].state in {1, 2};
      }
      assert AllUp(members, gone);
    }
  }

  ghost predicate OnePrimary(members: seq<RsMember>, gone: set<string>) {
    exists i :: PresentPrimary(members, gone, i) && forall j | PresentPrimary(members, gone, j) :: j == i
  }

  lemma OnePrimaryIsCounted(members: seq<RsMember>, gone: set<string>)
    ensures OnePrimary(members, gone) <==> CountPrimaries(Present(members, gone)) == 1
  {
    CountIsTheSizeOfPresentPrimaries(members, gone);
    var primaries := PresentPrimaries(members, gone);
    if |primaries| == 1 {
      assert primaries != {};
      var i :| i in primaries;
      assert PresentPrimary(members, gone, i);
      forall j | PresentPrimary(members, gone, j) ensures j == i {
        if j != i {
          SubsetSize({i, j}, primaries);
        }
      }
    }
    if i :| PresentPrimary(members, gone, i) && forall j | PresentPrimary(members, gone, j) :: j == i {
      assert primaries == {i};
    }
  }

  /** A credential step goes ahead exactly on members that are up: every member whose
      service still exists is a healthy PRIMARY or SECONDARY, exactly one of them is the
      primary, and more than half of the config is reached. */
  lemma ReadyMeansAWorkingMajority(members: seq<RsMember>, gone: set<string>, c: Config)
    requires WellFormed(c) && ViewOf(members, c)
    ensures HealthySet(members, gone) <==>
              AllUp(members, gone) && OnePrimary(members, gone) && 2 * |Reachable(members)| > |HostSet(c)|
    ensures HealthySet(members, gone) ==> forall m | m in members && m.host !in gone :: Fold(m.host) in Reachable(members)
  {
    PresentAreUp(members, gone);
    OnePrimaryIsCounted(members, gone);
    MajorityOfTheConfig(members, c);
  }
}
