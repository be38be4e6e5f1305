/** HA and standalone boots of one volume, with a crash possible at every step: the
    record a set member leaves, the oplog replay before a standalone start, and
    what the real standalone mongod then opens. */
module Revert {
  import opened Wrappers
  import opened AuthPins

  // ---------------------------------------------------------------- the recovery boot

  const NO_OPLOG_LOG_ID: int := 31364
  const SHUTDOWN_LIMIT: nat := 30 * 60   // seconds

  datatype LogLine = LogLine(id: Option<int>, fatal: bool, text: string)

  /** The log of the recovery mongod, as far as the verdict needs it. */
  method ForwardLog(lines: seq<LogLine>) returns (sawNoOplog: bool, lastFatal: Option<string>)
    ensures sawNoOplog <==> exists i | 0 <= i < |lines| :: lines[i].id == Some(31364)
    ensures lastFatal.None? <==> forall i | 0 <= i < |lines| :: !lines[i].fatal
    ensures lastFatal.Some? ==>
              exists i | 0 <= i < |lines| :: lines[i].fatal && lastFatal == Some(lines[i].text)
                                             && forall k | i < k < |lines| :: !lines[k].fatal
  {
    sawNoOplog, lastFatal := false, None;
    ghost var at := 0;
    for i := 0 to |lines|
      invariant sawNoOplog <==> exists k | 0 <= k < i :: lines[k].id == Some(NO_OPLOG_LOG_ID)
      invariant lastFatal.None? <==> forall k | 0 <= k < i :: !lines[k].fatal
      invariant lastFatal.Some? ==> 0 <= at < i && lines[at].fatal && lastFatal == Some(lines[at].text)
                                    && forall k | at < k < i :: !lines[k].fatal
    {
      if lines[i].id == Some(NO_OPLOG_LOG_ID) {
        sawNoOplog := true;
      }
      if lines[i].fatal {
        lastFatal := Some(lines[i].text);
        at := i;
      }
    }
  }

  datatype Replay = Replayed | NoOplog

  /** What a poll of the recovery mongod finds: gone, answering a ping, or neither. */
  datatype Poll = Exited(success: bool) | Answers | StillReplaying

  /** The first poll that decides the wait for the recovery mongod. */
  predicate Decides(polls: seq<Poll>, k: int) {
    0 <= k < |polls| && !polls[k].StillReplaying? && forall i | 0 <= i < k :: polls[i].StillReplaying?
  }

  /** The poll, one a second, at which the stopping mongod is seen to have exited
      within half an hour. */
  predicate StopsAt(stops: seq<Poll>, k: int) {
    0 <= k < |stops| && k <= 1800 && stops[k].Exited? && forall i | 0 <= i < k :: !stops[i].Exited?
  }

  /** The recovery boot: `Replayed` only when mongod came up and then exited with
      success, `NoOplog` only when it exited before coming up and said so; any other
      course is an error. Running out of polls stands for a wait that never ends. */
  method ReplayOplogAsStandalone(lines: seq<LogLine>, polls: seq<Poll>, stops: seq<Poll>) returns (r: Result<Replay>)
    ensures r == Ok(Replayed) <==>
              exists k :: Decides(polls, k) && polls[k].Answers? && exists j :: StopsAt(stops, j) && stops[j].success
    ensures r == Ok(NoOplog) <==>
              exists k :: Decides(polls, k) && polls[k].Exited?
                          && exists i | 0 <= i < |lines| :: lines[i].id == Some(31364)
  {
    var k := 0;
    while k < |polls| && polls[k].StillReplaying?
      invariant 0 <= k <= |polls|
      invariant forall i | 0 <= i < k :: polls[i].StillReplaying?
    {
      k := k + 1;
    }
    if k == |polls| { return Err("still replaying"); }
    assert Decides(polls, k);
    if polls[k].Exited? {
      var sawNoOplog, lastFatal := ForwardLog(lines);
      if sawNoOplog { return Ok(NoOplog); }
      return Err("recovery failed");
    }
    var j := 0;
    while j < |stops| && !stops[j].Exited?
      invariant 0 <= j <= |stops| && j <= SHUTDOWN_LIMIT
      invariant forall i | 0 <= i < j :: !stops[i].Exited?
    {
      if j >= SHUTDOWN_LIMIT { return Err("did not finish its shutdown checkpoint"); }
      j := j + 1;
    }
    if j == |stops| { return Err("still stopping"); }
    assert StopsAt(stops, j);
    if !stops[j].success { return Err("the checkpoint may not have been taken"); }
    return Ok(Replayed);
  }

  // ---------------------------------------------------------------- the volume and its boots

  /** `behind`: the oplog holds writes no checkpoint covers; a mongod without
      `--replSet` that opens the data dir now drops them. */
  datatype Volume = Volume(dataset: bool, marker: bool, pin: Option<AuthPin>, oplog: bool, behind: bool)
  {
    predicate PinsAKeyfile() {
      pin.Some? && pin.value.keyfile.Some?
    }
  }

  predicate ReplayNeeded(hasData: bool, markerPresent: bool, pin: Option<AuthPin>) {
    hasData && (markerPresent || (pin.Some? && pin.value.keyfile.Some?))
  }

  datatype Phase =
    | Down
    | HaBooting            // data dir and pin inspected, marker not written yet
    | HaMarked
    | HaRunning
    | StandaloneBooting(hasData: bool, pin: Option<AuthPin>)
    | Recovering           // the recovery mongod replays
    | RecoveryUp           // it answered a ping and is being stopped
    | RecoveryDone         // checkpointed, or no oplog
    | StandaloneReady
    | StandaloneRunning

  /** `lost`: the real standalone mongod opened a data dir that was behind. */
  datatype Machine = Machine(volume: Volume, phase: Phase, lost: bool)

  datatype Step =
    | BootHa
    | WriteMarker(ok: bool)
    | OpenHa
    | Write                                          // a replicated write
    | Checkpoint
    | ProvePin(password: Password, bootKeyfile: Option<Keyfile>)
    | CoordinatedPin(password: Password, keyfile: Keyfile)
    | StopHa(caughtUp: bool)                         // a clean stop covers at most the stable timestamp
    | BootStandalone
    | Decide(cleared: bool)
    | RecoveryExits(sawNoOplog: bool)
    | RecoveryAnswers
    | RecoveryStops(clean: bool)
    | ClearMarker(cleared: bool)
    | OpenStandalone
    | DropLocal
    | Crash

  predicate Enabled(m: Machine, step: Step) {
    match step
    case BootHa => m.phase.Down?
    case WriteMarker(_) => m.phase.HaBooting?
    case OpenHa => m.phase.HaMarked?
    case Write => m.phase.HaRunning?
    case Checkpoint => m.phase.HaRunning?
    case ProvePin(_, bootKeyfile) => (m.phase.HaRunning? && bootKeyfile.Some?) || (m.phase.StandaloneRunning? && bootKeyfile.None?)
    case CoordinatedPin(_, _) => m.phase.HaRunning?
    case StopHa(_) => m.phase.HaRunning?
    case BootStandalone => m.phase.Down?
    case Decide(_) => m.phase.StandaloneBooting?
    case RecoveryExits(sawNoOplog) => m.phase.Recovering? && (sawNoOplog ==> !m.volume.oplog)
    case RecoveryAnswers => m.phase.Recovering?
    case RecoveryStops(_) => m.phase.RecoveryUp?
    case ClearMarker(_) => m.phase.RecoveryDone?
    case OpenStandalone => m.phase.StandaloneReady?
    case DropLocal => m.phase.StandaloneRunning?
    case Crash => true
  }

  function Apply(m: Machine, step: Step): Machine {
    var v := m.volume;
    match step
    case BootHa => m.(phase := HaBooting)
    case WriteMarker(ok) => m.(volume := v.(marker := v.marker || ok), phase := HaMarked)
    case OpenHa => m.(volume := v.(dataset := true), phase := HaRunning)
    case Write => m.(volume := v.(oplog := true, behind := true))
    case Checkpoint => m.(volume := v.(behind := false))
    case ProvePin(password, bootKeyfile) => m.(volume := v.(pin := Some(WithPassword(v.pin, password, bootKeyfile))))
    case CoordinatedPin(password, keyfile) => m.(volume := v.(pin := Some(AuthPin(password, Some(keyfile)))))
    case StopHa(caughtUp) => m.(volume := v.(behind := v.behind && !caughtUp), phase := Down)
    case BootStandalone => m.(phase := StandaloneBooting(v.dataset, v.pin))
    case Decide(cleared) =>
      if !m.phase.StandaloneBooting? then m
      else if !m.phase.hasData then m.(volume := v.(marker := v.marker && !cleared), phase := StandaloneReady)
      else if ReplayNeeded(m.phase.hasData, v.marker, m.phase.pin) then m.(phase := Recovering)
      else m.(phase := StandaloneReady)
    case RecoveryExits(sawNoOplog) => m.(phase := if sawNoOplog then RecoveryDone else Down)
    case RecoveryAnswers => m.(phase := RecoveryUp)
    case RecoveryStops(clean) =>
      if clean then m.(volume := v.(behind := false), phase := RecoveryDone) else m.(phase := Down)
    case ClearMarker(cleared) => m.(volume := v.(marker := v.marker && !cleared), phase := StandaloneReady)
    case OpenStandalone => m.(volume := v.(dataset := true), phase := StandaloneRunning, lost := m.lost || v.behind)
    case DropLocal => m.(volume := v.(oplog := false))
    case Crash => m.(phase := Down)
  }

  function Run(m: Machine, steps: seq<Step>): Machine {
    if steps == [] then m else Apply(Run(m, steps[..|steps| - 1]), steps[|steps| - 1])
  }

  predicate Possible(m: Machine, steps: seq<Step>) {
    steps == [] || (Possible(m, steps[..|steps| - 1]) && Enabled(Run(m, steps[..|steps| - 1]), steps[|steps| - 1]))
  }

  /** Prefix by prefix: the state after `k` steps is the state after `k - 1` with one
      more step taken. */
  lemma OneMore(m: Machine, steps: seq<Step>, k: nat)
    requires 0 < k <= |steps|
    ensures Run(m, steps[..k]) == Apply(Run(m, steps[..k - 1]), steps[k - 1])
    ensures Possible(m, steps[..k]) <==> Possible(m, steps[..k - 1]) && Enabled(Run(m, steps[..k - 1]), steps[k - 1])
  {
    assert steps[..k][..k - 1] == steps[..k - 1];
  }

  function FreshVolume(): Machine {
    Machine(Volume(false, false, None, false, false), Down, false)
  }

  // ---------------------------------------------------------------- nothing is lost

  /** What holds whether or not the marker could be written. */
  predicate Consistent(m: Machine) {
    && (m.volume.behind ==> m.volume.dataset && m.volume.oplog)
    && (m.phase.StandaloneBooting? ==> m.phase.hasData == m.volume.dataset && m.phase.pin == m.volume.pin)
    && (m.phase.HaRunning? || m.phase.Recovering? || m.phase.RecoveryUp? ==> m.volume.dataset)
    && (m.phase.RecoveryDone? || m.phase.StandaloneRunning? ==> !m.volume.behind)
    && !m.lost
  }

  /** The volume says that it ran as a set member. */
  predicate Recorded(m: Machine) {
    m.volume.marker || m.volume.PinsAKeyfile()
  }

  predicate Invariant(m: Machine) {
    && Consistent(m)
    && (m.volume.behind ==> Recorded(m))
    && (m.phase.HaMarked? || m.phase.HaRunning? ==> m.volume.marker)
    && (m.phase.StandaloneReady? ==> !m.volume.behind)
  }

  lemma StepKeepsInvariant(m: Machine, step: Step)
    requires Invariant(m) && Enabled(m, step) && (step.WriteMarker? ==> step.ok)
    ensures Invariant(Apply(m, step))
  {
  }

  lemma {:induction false} InvariantHolds(m: Machine, steps: seq<Step>)
    requires Invariant(m) && Possible(m, steps)
    requires forall k | 0 <= k < |steps| && steps[k].WriteMarker? :: steps[k].ok
    ensures Invariant(Run(m, steps))
  {
    if steps != [] {
      InvariantHolds(m, steps[..|steps| - 1]);
      StepKeepsInvariant(Run(m, steps[..|steps| - 1]), steps[|steps| - 1]);
    }
  }

  /** A volume a wrapper finds: whatever is behind is on record, by the marker or, from
      an image that knew none, by a pinned keyfile. A fresh one is a case of it. */
  predicate Found(volume: Volume) {
    volume.behind ==> volume.dataset && volume.oplog && (volume.marker || volume.PinsAKeyfile())
  }

  /** Over every sequence of HA and standalone boots of any such volume, a crash at any
      step, with the marker written before each HA start: the real standalone mongod
      never opens a data dir that is behind its oplog, and whatever is behind stays on
      record. */
  lemma NothingIsLost(volume: Volume, steps: seq<Step>)
    requires Found(volume) && Possible(Machine(volume, Down, false), steps)
    requires forall k | 0 <= k < |steps| && steps[k].WriteMarker? :: steps[k].ok
    ensures var m := Run(Machine(volume, Down, false), steps);
            && !m.lost && Found(m.volume)
            && (m.phase.HaRunning? ==> m.volume.marker)
            && (m.phase.StandaloneRunning? ==> !m.volume.behind)
  {
    InvariantHolds(Machine(volume, Down, false), steps);
  }

  lemma RecordedVolumesReplay(m: Machine)
    requires m.volume.dataset && Recorded(m)
    ensures Run(m, [Crash, BootStandalone, Decide(true)]).phase.Recovering?
  {
    var more := [Crash, BootStandalone, Decide(true)];
    assert more[..3] == more && more[..0] == [];
    OneMore(m, more, 1);
    OneMore(m, more, 2);
    OneMore(m, more, 3);
  }

  /** A replay cut short is started over by the next standalone boot. */
  lemma AnInterruptedReplayIsRepeated(volume: Volume, steps: seq<Step>)
    requires Found(volume) && Possible(Machine(volume, Down, false), steps)
    requires forall k | 0 <= k < |steps| && steps[k].WriteMarker? :: steps[k].ok
    requires var m := Run(Machine(volume, Down, false), steps); (m.phase.Recovering? || m.phase.RecoveryUp?) && m.volume.behind
    ensures var m := Run(Machine(volume, Down, false), steps);
            Run(m, [Crash, BootStandalone, Decide(true)]).phase.Recovering?
  {
    InvariantHolds(Machine(volume, Down, false), steps);
    RecordedVolumesReplay(Run(Machine(volume, Down, false), steps));
  }

  // ---------------------------------------------------------------- when the marker cannot be written

  predicate SafelyConsistent(m: Machine) {
    Consistent(m) && (m.phase.StandaloneReady? ==> !m.volume.behind)
  }

  lemma StepKeepsConsistent(m: Machine, step: Step)
    requires SafelyConsistent(m) && Enabled(m, step)
    requires step.Decide? && m.volume.behind ==> Recorded(m)
    ensures SafelyConsistent(Apply(m, step))
  {
  }

  lemma {:induction false} ConsistentWhileRecorded(steps: seq<Step>, k: nat)
    requires k <= |steps| && Possible(FreshVolume(), steps[..k])
    requires forall i | 0 <= i < k && steps[i].Decide? ::
               Run(FreshVolume(), steps[..i]).volume.behind ==> Recorded(Run(FreshVolume(), steps[..i]))
    ensures SafelyConsistent(Run(FreshVolume(), steps[..k]))
  {
    if k > 0 {
      OneMore(FreshVolume(), steps, k);
      ConsistentWhileRecorded(steps, k - 1);
      StepKeepsConsistent(Run(FreshVolume(), steps[..k - 1]), steps[k - 1]);
    }
  }

  /** A standalone boot decides without a replay although the volume is behind. */
  predicate DecidesBlind(steps: seq<Step>, k: int) {
    && 0 <= k < |steps| && steps[k].Decide?
    && Run(FreshVolume(), steps[..k]).volume.behind
    && !Recorded(Run(FreshVolume(), steps[..k]))
  }

  /** HA boots go on when the marker cannot be written. Whatever then fails, writes are
      lost only through a standalone boot of a volume that is behind and carries
      neither record, the marker or a pinned keyfile. */
  lemma LostOnlyWithoutARecord(steps: seq<Step>)
    requires Possible(FreshVolume(), steps)
    requires Run(FreshVolume(), steps).lost
    ensures exists k :: DecidesBlind(steps, k)
  {
    assert steps[..|steps|] == steps;
    if forall k :: !DecidesBlind(steps, k) {
      forall i | 0 <= i < |steps| && steps[i].Decide?
        ensures Run(FreshVolume(), steps[..i]).volume.behind ==> Recorded(Run(FreshVolume(), steps[..i]))
      {
        assert !DecidesBlind(steps, i);
      }
      ConsistentWhileRecorded(steps, |steps|);
    }
  }

  lemma {:induction false} BootSawTheVolume(steps: seq<Step>)
    requires Possible(FreshVolume(), steps)
    ensures var m := Run(FreshVolume(), steps);
            && (m.phase.StandaloneBooting? ==> m.phase.hasData == m.volume.dataset && m.phase.pin == m.volume.pin)
            && (m.phase.HaRunning? || m.volume.behind ==> m.volume.dataset)
  {
    if steps != [] {
      BootSawTheVolume(steps[..|steps| - 1]);
    }
  }

  /** At every standalone boot, of any run: the real mongod is about to open a data
      dir that is behind exactly if it is behind and unrecorded when the boot decides. */
  lemma OpensBehindExactlyWithoutARecord(steps: seq<Step>, cleared: bool)
    requires Possible(FreshVolume(), steps) && Run(FreshVolume(), steps).phase.StandaloneBooting?
    ensures var m := Run(FreshVolume(), steps);
            var decided := Apply(m, Decide(cleared));
            (Enabled(decided, OpenStandalone) && decided.volume.behind) <==> (m.volume.behind && !Recorded(m))
  {
    BootSawTheVolume(steps);
  }

  lemma Then(m: Machine, steps: seq<Step>, step: Step) returns (more: seq<Step>)
    requires Possible(m, steps) && Enabled(Run(m, steps), step)
    ensures more == steps + [step]
    ensures Possible(m, more) && Run(m, more) == Apply(Run(m, steps), step)
  {
    more := steps + [step];
    assert more[..|steps|] == steps;
  }

  /** What a standalone boot decides: a replay exactly of a data dir with one of the two
      records; an empty one is opened as it is, its marker void. */
  lemma ReplaysExactlyWithARecord(m: Machine, cleared: bool)
    requires m.phase.StandaloneBooting?
    ensures var decided := Apply(m, Decide(cleared));
            && (decided.phase.Recovering? <==>
                  m.phase.hasData && (m.volume.marker || (m.phase.pin.Some? && m.phase.pin.value.keyfile.Some?)))
            && (!decided.phase.Recovering? ==> decided.phase.StandaloneReady?)
            && (!m.phase.hasData ==> decided.volume == m.volume.(marker := m.volume.marker && !cleared))
            && (m.phase.hasData ==> decided.volume == m.volume)
  {
  }

  /** A replay that comes up and stops cleanly ends in a standalone mongod on a data dir
      that is not behind, with the marker gone, and the `local` database dropped after it. */
  lemma AReplayEndsClean(m: Machine) returns (steps: seq<Step>)
    requires m.phase.Recovering?
    ensures steps == [RecoveryAnswers, RecoveryStops(true), ClearMarker(true), OpenStandalone, DropLocal] && Possible(m, steps)
    ensures Run(m, steps)
            == Machine(m.volume.(dataset := true, marker := false, behind := false, oplog := false), StandaloneRunning, m.lost)
  {
    steps := Then(m, [], RecoveryAnswers);
    steps := Then(m, steps, RecoveryStops(true));
    steps := Then(m, steps, ClearMarker(true));
    steps := Then(m, steps, OpenStandalone);
    steps := Then(m, steps, DropLocal);
  }

  /** A set member that could mark its volume and proved its password leaves both records,
      and a later password proof keeps the keyfile. */
  lemma AMemberLeavesBothRecords(password: Password, keyfile: Keyfile, later: Password, other: Keyfile) returns (steps: seq<Step>)
    ensures steps == [BootHa, WriteMarker(true), OpenHa, ProvePin(password, Some(keyfile)), ProvePin(later, Some(other)), StopHa(true)]
    ensures Possible(FreshVolume(), steps)
    ensures Run(FreshVolume(), steps) == Machine(Volume(true, true, Some(AuthPin(later, Some(keyfile))), false, false), Down, false)
  {
    var m := FreshVolume();
    steps := Then(m, [], BootHa);
    steps := Then(m, steps, WriteMarker(true));
    steps := Then(m, steps, OpenHa);
    steps := Then(m, steps, ProvePin(password, Some(keyfile)));
    steps := Then(m, steps, ProvePin(later, Some(other)));
    steps := Then(m, steps, StopHa(true));
  }

  lemma WritesWithoutAMarker() returns (steps: seq<Step>)
    ensures Possible(FreshVolume(), steps) && steps == [BootHa, WriteMarker(false), OpenHa, Write]
    ensures Run(FreshVolume(), steps) == Machine(Volume(true, false, None, true, true), HaRunning, false)
  {
    var m := FreshVolume();
    steps := Then(m, [], BootHa);
    steps := Then(m, steps, WriteMarker(false));
    steps := Then(m, steps, OpenHa);
    steps := Then(m, steps, Write);
  }

  /** Such a run exists: the marker write fails and the member crashes before its
      password was proven, so nothing on the volume tells of its set. */
  lemma AnUnmarkedCrashLosesWrites() returns (steps: seq<Step>)
    ensures Possible(FreshVolume(), steps) && Run(FreshVolume(), steps).lost
    ensures steps == [BootHa, WriteMarker(false), OpenHa, Write, Crash, BootStandalone, Decide(true), OpenStandalone]
  {
    var m := FreshVolume();
    steps := WritesWithoutAMarker();
    steps := Then(m, steps, Crash);
    steps := Then(m, steps, BootStandalone);
    steps := Then(m, steps, Decide(true));
    steps := Then(m, steps, OpenStandalone);
  }

  // ---------------------------------------------------------------- once per revert?

  predicate StandaloneOnly(steps: seq<Step>) {
    forall k | 0 <= k < |steps| :: steps[k] != BootHa
  }

  predicate OutsideHa(phase: Phase) {
    !phase.HaBooting? && !phase.HaMarked? && !phase.HaRunning?
  }

  /** Standalone life never takes a keyfile out of the pin, and never puts one in. */
  lemma {:induction false} StandaloneLifeKeepsThePin(m: Machine, steps: seq<Step>)
    requires Possible(m, steps) && StandaloneOnly(steps) && OutsideHa(m.phase)
    ensures OutsideHa(Run(m, steps).phase)
    ensures Run(m, steps).volume.PinsAKeyfile() == m.volume.PinsAKeyfile()
    ensures m.volume.dataset ==> Run(m, steps).volume.dataset
    ensures !m.volume.marker ==> !Run(m, steps).volume.marker
  {
    if steps != [] {
      StandaloneLifeKeepsThePin(m, steps[..|steps| - 1]);
    }
  }

  /** A replay was checkpointed and its marker cleared. From then on, however often
      the node boots standalone and proves its password, the next standalone boot
      replays again exactly if the volume still pins a keyfile. */
  lemma ReplaysAgainExactlyWithAPinnedKeyfile(m: Machine, steps: seq<Step>)
    requires m.phase.RecoveryDone? && m.volume.dataset
    requires var ready := Apply(m, ClearMarker(true));
             Possible(ready, steps) && StandaloneOnly(steps) && Run(ready, steps).phase.Down?
    ensures var later := Run(Apply(m, ClearMarker(true)), steps);
            Apply(Apply(later, BootStandalone), Decide(true)).phase.Recovering? <==> m.volume.PinsAKeyfile()
  {
    StandaloneLifeKeepsThePin(Apply(m, ClearMarker(true)), steps);
  }

  /** The claim that the proof of a standalone boot retires the pinned keyfile is
      false of the code: after a finished replay, a standalone start and its proof,
      the keyfile is still pinned and the next standalone boot replays once more. */
  lemma TheLatchDoesNotHold(password: Password, keyfile: Keyfile)
    ensures var pinned := Volume(true, false, Some(AuthPin(password, Some(keyfile))), true, false);
            var steps := [OpenStandalone, ProvePin(password, None), Crash, BootStandalone, Decide(true)];
            && Possible(Machine(pinned, StandaloneReady, false), steps)
            && Run(Machine(pinned, StandaloneReady, false), steps) == Machine(pinned, Recovering, false)
  {
    var pinned := Volume(true, false, Some(AuthPin(password, Some(keyfile))), true, false);
    var m := Machine(pinned, StandaloneReady, false);
    var steps := [OpenStandalone, ProvePin(password, None), Crash, BootStandalone, Decide(true)];
    assert steps[..5] == steps;
    OneMore(m, steps, 1);
    OneMore(m, steps, 2);
    OneMore(m, steps, 3);
    OneMore(m, steps, 4);
    OneMore(m, steps, 5);
  }
}
