/** One member's process: the rotation route, the supervisor's restart arm and the boot,
    as the object whose fields they update, interleaved in any order. Its keyfile lives
    in four places: the pin, the file on disk, mongod, and what the route reports as
    loaded. A member of the rotation protocol is this process seen from outside. */
module Supervisor {
  import opened Wrappers
  import opened AuthPins
  import opened Rotation

  // ---------------------------------------------------------------- the process

  /** Where the supervise loop stands: at its head, or in the restart arm, the handoff
      under way, the keyfile written, or mongod started again. */
  datatype Arm = Head | Handing(target: Keyfile) | Written(target: Keyfile) | Spawned(target: Keyfile)

  /** `disk` is the file --keyFile points at, `spawned` what mongod read when it was last
      started, `loaded` LOADED_KEYFILE, `notified` the permit of RESTART_MONGO. A process
      that ended is back only through a boot. */
  datatype Process = Process(pin: Option<AuthPin>, disk: Keyfile, spawned: Keyfile, loaded: Keyfile,
                             notified: bool, arm: Arm, held: Option<Held>, alive: bool)
  {
    function View(): Member {
      Member(pin, loaded, notified, if arm.Head? then None else Some(arm.target), held)
    }

    /** `request` holds the lock, and this stage of it is reached. */
    predicate At(request: Request, stage: Stage) {
      held == Some(Held(request, stage))
    }
  }

  datatype Event =
    | Admit(request: Request, works: bool)
    | Checks
    | Intends(ready: bool)
    | Announced
    | Seen
    | Answered(ready: bool)
    | TimedOut
    | PasswordWritten(password: Password)
    | Notified
    | HandoffRefused
    | KeyfileWritten(ok: bool)
    | Respawned(ok: bool)
    | KeyfileLoaded
    | Crash(boot: HaBoot)

  function Booted(pin: Option<AuthPin>, boot: HaBoot): Process {
    var m := Reboot(Member(pin, [], false, None, None), boot);
    Process(m.pin, m.loaded, m.loaded, m.loaded, false, Head, None, true)
  }

  function After(p: Process, e: Event): Process {
    if e.Crash? then Booted(p.pin, e.boot)
    else if !p.alive then p
    else
      var m := p.View();
      match e
      case Admit(request, works) => p.(held := Accept(m, request, works).held)
      case Checks => p.(held := Check(m).held)
      case Intends(ready) => p.(pin := Intend(m, ready).pin, held := Intend(m, ready).held)
      case Announced => p.(notified := Announce(m).notified, held := Announce(m).held)
      case Seen => p.(held := See(m).held)
      case Answered(ready) => p.(held := Answer(m, ready).held)
      case TimedOut => p.(held := Expire(m).held)
      case PasswordWritten(password) => p.(pin := PinPassword(m, password).pin)
      case Notified =>
        if !p.arm.Head? then p
        else
          var n := Capture(m);
          p.(notified := n.notified, arm := if n.restarting.Some? then Handing(n.restarting.value) else Head)
      case HandoffRefused => if p.arm.Handing? then p.(arm := Head) else p
      case KeyfileWritten(ok) =>
        if !p.arm.Handing? then p
        else if ok then p.(disk := p.arm.target, arm := Written(p.arm.target))
        else p.(alive := false)
      case Respawned(ok) =>
        if !p.arm.Written? then p
        else if ok then p.(spawned := p.arm.target, arm := Spawned(p.arm.target))
        else p.(alive := false)
      case KeyfileLoaded => if p.arm.Spawned? then p.(loaded := p.arm.target, arm := Head) else p
  }

  function AfterAll(p: Process, events: seq<Event>): Process {
    if events == [] then p else After(AfterAll(p, events[..|events| - 1]), events[|events| - 1])
  }

  /** What the protocol makes of an event. */
  function ProtocolStep(m: Member, e: Event): Member {
    match e
    case Admit(request, works) => Accept(m, request, works)
    case Checks => Check(m)
    case Intends(ready) => Intend(m, ready)
    case Announced => Announce(m)
    case Seen => See(m)
    case Answered(ready) => Answer(m, ready)
    case TimedOut => Expire(m)
    case PasswordWritten(password) => PinPassword(m, password)
    case Notified => Capture(m)
    case HandoffRefused => EndRestart(m, false)
    case KeyfileLoaded => EndRestart(m, true)
    case Crash(boot) => Reboot(m, boot)
    case _ => m
  }

  /** Seen from outside, whatever happens in the process is a step of the protocol's
      member, or nothing. */
  lemma EveryEventIsAProtocolStep(p: Process, e: Event)
    ensures After(p, e).View() == ProtocolStep(p.View(), e) || After(p, e).View() == p.View()
  {
  }

  /** A key phase logs what it does to the volume, with the keyfile that is loaded when it
      takes its branch. */
  lemma APhaseLogsItsPin(p: Process, request: Request, answer: Probe, ready: bool)
    requires p.alive && p.held.None?
    ensures PerformAll(p.pin, KeyPhaseLog(request.newPassword, request.Target(), answer, p.loaded, ready))
            == After(After(After(p, Admit(request, answer.Works?)), Checks), Intends(ready)).pin
  {
    var probe, write := Probed(request.newPassword, answer), WrotePin(request.newPassword, request.Target());
    OneAction(p.pin, "", probe);
    TwoActions(p.pin, "", probe, write);
    assert [probe] + [write] == [probe, write] && [probe] + [] == [probe];
  }

  // ---------------------------------------------------------------- the object

  class Node {
    var pin: Option<AuthPin>
    var disk: Keyfile
    var spawned: Keyfile
    var loaded: Keyfile
    var notified: bool
    var arm: Arm
    var held: Option<Held>
    var alive: bool

    function State(): Process
      reads this
    {
      Process(pin, disk, spawned, loaded, notified, arm, held, alive)
    }

    /** The HA boot: reconcile, resolve, write the keyfile, load it, spawn. */
    constructor (onVolume: Option<AuthPin>, boot: HaBoot)
      ensures State() == Booted(onVolume, boot)
      ensures disk == spawned == loaded
      ensures pin == Reconciled(onVolume, boot) && !notified && arm.Head? && held.None? && alive
      ensures loaded == if pin.Some? && pin.value.keyfile.Some? then pin.value.keyfile.value
                        else if boot.liveSetKeyfile.Some? then boot.liveSetKeyfile.value
                        else [Derived(boot.rsKey)]
    {
      var after := ReconcileKeyfileAtBoot(onVolume, boot);
      var creds := ResolveBootCredentials(after, boot.envPassword, Some(boot.rsKey), boot.liveSetKeyfile);
      pin := after;
      disk := creds.keyfile.value;
      loaded := creds.keyfile.value;
      spawned := creds.keyfile.value;
      notified, arm, held, alive := false, Head, None, true;
    }

    /** Crash and boot on the same volume. */
    method Restart(boot: HaBoot)
      modifies this
      ensures State() == After(old(State()), Crash(boot))
      ensures disk == spawned == loaded
      ensures pin == Reconciled(old(pin), boot) && !notified && arm.Head? && held.None? && alive
      ensures loaded == if pin.Some? && pin.value.keyfile.Some? then pin.value.keyfile.value
                        else if boot.liveSetKeyfile.Some? then boot.liveSetKeyfile.value
                        else [Derived(boot.rsKey)]
    {
      var after := ReconcileKeyfileAtBoot(pin, boot);
      var creds := ResolveBootCredentials(after, boot.envPassword, Some(boot.rsKey), boot.liveSetKeyfile);
      pin := after;
      disk := creds.keyfile.value;
      loaded := creds.keyfile.value;
      spawned := creds.keyfile.value;
      notified, arm, held, alive := false, Head, None, true;
    }

    /** A key phase at the lock: it probes its new password before anything else. */
    method BeginPhase(request: Request, answer: Probe) returns (log: seq<Action>)
      requires alive
      modifies this`held
      ensures State() == After(old(State()), Admit(request, answer.Works?))
      ensures held == if old(held).None? && answer.Works? then Some(Held(request, Admitted)) else old(held)
      ensures log == if old(held).Some? then [] else [Probed(request.newPassword, answer)]
    {
      if held.Some? { return []; }
      if answer.Works? {
        held := Some(Held(request, Admitted));
      }
      return [Probed(request.newPassword, answer)];
    }

    /** Is the target loaded? Otherwise the set is asked whether it is ready. */
    method CheckTarget()
      requires alive
      modifies this`held
      ensures State() == After(old(State()), Checks)
      ensures held == if old(held).Some? && old(held).value.stage.Admitted?
                      then Some(old(held).value.(stage := if loaded == old(held).value.request.Target() then Waits else Checked))
                      else old(held)
    {
      if held.None? || !held.value.stage.Admitted? { return; }
      if loaded != held.value.request.Target() {
        held := Some(held.value.(stage := Checked));
      } else {
        held := Some(held.value.(stage := Waits));
      }
    }

    /** The answer came, and whatever happened meanwhile, the target is pinned. */
    method IntendTarget(ready: bool) returns (log: seq<Action>)
      requires alive
      modifies this`pin, this`held
      ensures State() == After(old(State()), Intends(ready))
      ensures var asked := old(held).Some? && old(held).value.stage.Checked?;
              && (asked && ready ==>
                    && pin == Some(AuthPin(old(held).value.request.newPassword, Some(old(held).value.request.Target())))
                    && held == Some(old(held).value.(stage := Wrote)))
              && (asked && !ready ==> pin == old(pin) && held.None?)
              && (!asked ==> unchanged(this))
      ensures PerformAll(old(pin), log) == pin
      ensures log == if old(held).Some?
                     then IntentLog(old(held).value.request.newPassword, old(held).value.request.Target(),
                                    old(held).value.stage.Checked?, ready)
                     else []
    {
      if held.None? || !held.value.stage.Checked? { return []; }
      if !ready {
        held := None;
        return [];
      }
      var request := held.value.request;
      pin := Some(AuthPin(request.newPassword, Some(request.Target())));
      held := Some(Held(request, Wrote));
      log := [WrotePin(request.newPassword, request.Target())];
      OneAction(old(pin), "", log[0]);
    }

    method AnnounceTarget()
      requires alive
      modifies this`notified, this`held
      ensures State() == After(old(State()), Announced)
      ensures if old(held).Some? && old(held).value.stage.Wrote?
              then notified && held == Some(old(held).value.(stage := Waits)) else unchanged(this)
    {
      if held.Some? && held.value.stage.Wrote? {
        notified := true;
        held := Some(held.value.(stage := Waits));
      }
    }

    method TimeOut()
      requires alive
      modifies this`held
      ensures State() == After(old(State()), TimedOut)
      ensures held == if old(held).Some? && !old(held).value.stage.Wrote? then None else old(held)
    {
      if held.Some? && !held.value.stage.Wrote? {
        held := None;
      }
    }

    /** One poll of the wait, its two halves. */
    method SeeTarget()
      requires alive
      modifies this`held
      ensures State() == After(old(State()), Seen)
      ensures held == if old(held).Some? && old(held).value.stage.Waits? && loaded == old(held).value.request.Target()
                      then Some(old(held).value.(stage := Sees)) else old(held)
    {
      if held.Some? && held.value.stage.Waits? && loaded == held.value.request.Target() {
        held := Some(held.value.(stage := Sees));
      }
    }

    method AnswerPhase(ready: bool) returns (ok: bool)
      requires alive
      modifies this`held
      ensures State() == After(old(State()), Answered(ready))
      ensures held == if !old(held.Some? && held.value.stage.Sees?) then old(held)
                      else if ready then None else Some(old(held).value.(stage := Waits))
      ensures ok <==> ready && old(held.Some? && held.value.stage.Sees?)
    {
      if held.None? || !held.value.stage.Sees? { return false; }
      held := if ready then None else Some(held.value.(stage := Waits));
      return ready;
    }

    /** The Member phase, also the one that reconciles a pending rotation: it runs under
        the lock, and writes only a password its own mongod accepts. */
    method MemberPhase(newPassword: Password, answer: Probe, writable: bool) returns (log: seq<Action>)
      requires alive && held.None?
      modifies this`pin
      ensures log == MemberLog(newPassword, answer, loaded, writable)
      ensures State() == if answer.Works? && writable then After(old(State()), PasswordWritten(newPassword)) else old(State())
      ensures pin == PerformAll(old(pin), log)
      ensures answer.Works? && writable ==>
                pin == Some(AuthPin(newPassword, if old(pin).Some? && old(pin).value.keyfile.Some? then old(pin).value.keyfile
                                                 else Some(loaded)))
      ensures answer.Works? ==> Swapped(newPassword) in log
    {
      log := [Probed(newPassword, answer)];
      assert PerformAll(pin, log) == pin;
      if !answer.Works? { return; }
      log := log + [Swapped(newPassword)];
      assert log[..1] == [Probed(newPassword, answer)] && PerformAll(pin, log) == pin;
      if !writable { return; }
      log := log + [WrotePassword(newPassword, Some(loaded))];
      assert log[..2] == [Probed(newPassword, answer), Swapped(newPassword)];
      pin := Some(WithPassword(pin, newPassword, Some(loaded)));
    }

    /** The restart arm: the notification, the handoff, and the three writes. */
    method TakeNotification()
      requires alive
      modifies this
      ensures State() == After(old(State()), Notified)
      ensures var taken := old(arm).Head? && old(notified);
              && arm == (if taken && pin.Some? && pin.value.keyfile.Some? && loaded != pin.value.keyfile.value
                         then Handing(pin.value.keyfile.value) else old(arm))
              && notified == (old(notified) && !taken)
              && unchanged(`pin) && unchanged(`disk) && unchanged(`spawned) && unchanged(`loaded)
              && unchanged(`held) && unchanged(`alive)
    {
      if !arm.Head? || !notified { return; }
      notified := false;
      if pin.None? || pin.value.keyfile.None? { return; }
      if loaded == pin.value.keyfile.value { return; }
      arm := Handing(pin.value.keyfile.value);
    }

    method RefuseHandoff()
      requires alive
      modifies this`arm
      ensures State() == After(old(State()), HandoffRefused)
      ensures arm == if old(arm).Handing? then Head else old(arm)
    {
      if arm.Handing? {
        arm := Head;
      }
    }

    method WriteKeyfile(ok: bool)
      requires alive
      modifies this
      ensures State() == After(old(State()), KeyfileWritten(ok))
      ensures if !old(arm).Handing? then unchanged(this)
              else if ok then disk == old(arm).target && arm == Written(old(arm).target) && alive
              else !alive && unchanged(`disk)
    {
      if !arm.Handing? { return; }
      if !ok {
        alive := false;
        return;
      }
      disk := arm.target;
      arm := Written(arm.target);
    }

    method Respawn(ok: bool)
      requires alive
      modifies this
      ensures State() == After(old(State()), Respawned(ok))
      ensures if !old(arm).Written? then unchanged(this)
              else if ok then spawned == old(arm).target && arm == Spawned(old(arm).target) && alive
              else !alive && unchanged(`spawned)
    {
      if !arm.Written? { return; }
      if !ok {
        alive := false;
        return;
      }
      spawned := arm.target;
      arm := Spawned(arm.target);
    }

    method SetLoaded()
      requires alive
      modifies this
      ensures State() == After(old(State()), KeyfileLoaded)
      ensures if old(arm).Spawned? then loaded == old(arm).target && arm.Head? && unchanged(`disk) && unchanged(`spawned)
              else unchanged(this)
    {
      if !arm.Spawned? { return; }
      loaded := arm.target;
      arm := Head;
    }

    /** The process over any interleaving of its tasks, crashes included. */
    method Live(events: seq<Event>)
      modifies this
      ensures State() == AfterAll(old(State()), events)
    {
      for i := 0 to |events|
        invariant State() == AfterAll(old(State()), events[..i])
      {
        assert events[..i + 1][..i] == events[..i];
        var e := events[i];
        if e.Crash? {
          Restart(e.boot);
        } else if alive {
          match e {
            case Admit(request, works) => var _ := BeginPhase(request, if works then Works else AccessDenied);
            case Checks => CheckTarget();
            case Intends(ready) => var _ := IntendTarget(ready);
            case Announced => AnnounceTarget();
            case Seen => SeeTarget();
            case Answered(ready) => var _ := AnswerPhase(ready);
            case TimedOut => TimeOut();
            case PasswordWritten(password) => pin := Some(WithPassword(pin, password, Some(loaded)));
            case Notified => TakeNotification();
            case HandoffRefused => RefuseHandoff();
            case KeyfileWritten(ok) => WriteKeyfile(ok);
            case Respawned(ok) => Respawn(ok);
            case KeyfileLoaded => SetLoaded();
          }
        }
      }
      assert events[..|events|] == events;
    }
  }

  // ---------------------------------------------------------------- where the keyfiles agree

  /** The four places, stage by stage of the restart arm; a target once pinned is on the
      volume. */
  predicate Coherent(p: Process) {
    p.alive ==>
      (p.held.Some? && p.held.value.stage.Wrote? ==> p.View().Pinned() && p.View().PinnedKeys() == p.held.value.request.Target()) &&
      (p.arm.Head? || p.View().Pinned()) &&
      match p.arm
      case Head => p.disk == p.spawned == p.loaded
      case Handing(target) => p.disk == p.spawned == p.loaded != target
      case Written(target) => p.disk == target != p.loaded && p.spawned == p.loaded
      case Spawned(target) => p.disk == p.spawned == target != p.loaded
  }

  lemma EventKeepsCoherent(p: Process, e: Event)
    requires Coherent(p)
    ensures Coherent(After(p, e))
  {
  }

  lemma {:induction false} RunKeepsCoherent(p: Process, events: seq<Event>)
    requires Coherent(p)
    ensures Coherent(AfterAll(p, events))
  {
    if events != [] {
      RunKeepsCoherent(p, events[..|events| - 1]);
      EventKeepsCoherent(AfterAll(p, events[..|events| - 1]), events[|events| - 1]);
    }
  }

  /** Over every run of a process since its boot, key phases, polls, timeouts, password
      writes, restarts and crashes in any order: at every head of the supervise loop the
      keyfile on disk, the one mongod runs and the one reported as loaded agree; and
      what is reported as loaded is what mongod runs, but for the moment between the
      start of mongod on another keyfile and the report of it. */
  lemma LoadedIsWhatRuns(onVolume: Option<AuthPin>, boot: HaBoot, events: seq<Event>)
    ensures var p := AfterAll(Booted(onVolume, boot), events);
            && (p.alive && p.arm.Head? ==> p.disk == p.spawned == p.loaded)
            && (p.alive ==> p.spawned == p.loaded || p.arm == Spawned(p.spawned))
  {
    RunKeepsCoherent(Booted(onVolume, boot), events);
  }

  // ---------------------------------------------------------------- what an OK says

  /** From here, without another phase being admitted, the phase of `request` comes to
      its OK while mongod runs another keyfile than its target. */
  predicate Misleads(p: Process, request: Request, events: seq<Event>) {
    && (forall i | 0 <= i < |events| :: !events[i].Admit?)
    && AfterAll(p, events).alive && AfterAll(p, events).At(request, Sees)
    && AfterAll(p, events).spawned != request.Target()
  }

  /** No restart is under way, and the permit, if there is one, leads to none. */
  predicate Settled(p: Process, target: Keyfile) {
    p.arm.Head? && (p.notified ==> !p.View().Pinned() || p.View().PinnedKeys() == target)
  }

  /** The target of the phase is not what stays: it is loaded while the supervisor is, or
      will be, on its way to another keyfile; or it is on its way in, with the permit for
      another one already given. */
  predicate Overtaken(p: Process, target: Keyfile) {
    if p.loaded == target then !Settled(p, target)
    else !p.arm.Head? && p.arm.target == target && p.notified && p.View().Pinned() && p.View().PinnedKeys() != target
  }

  /** What keeps an OK honest while the phase works towards it. */
  predicate Honest(p: Process, request: Request) {
    p.held.Some? ==>
      && p.held.value.request == request
      && (p.held.value.stage.Sees? ==> p.loaded == request.Target())
      && !Overtaken(p, request.Target())
  }

  lemma EventKeepsHonest(p: Process, e: Event, request: Request)
    requires Coherent(p) && Honest(p, request) && !e.Admit?
    ensures Honest(After(p, e), request)
  {
    assert request.Target() != [];
  }

  lemma {:induction false} RunKeepsHonest(p: Process, events: seq<Event>, request: Request)
    requires Coherent(p) && Honest(p, request) && forall i | 0 <= i < |events| :: !events[i].Admit?
    ensures Honest(AfterAll(p, events), request) && Coherent(AfterAll(p, events))
  {
    if events != [] {
      RunKeepsHonest(p, events[..|events| - 1], request);
      EventKeepsCoherent(AfterAll(p, events[..|events| - 1]), events[|events| - 1]);
      EventKeepsHonest(AfterAll(p, events[..|events| - 1]), events[|events| - 1], request);
    }
  }

  lemma {:induction false} FirstEvent(p: Process, e: Event, rest: seq<Event>)
    ensures AfterAll(p, [e] + rest) == AfterAll(After(p, e), rest)
  {
    if rest == [] {
      assert [e] + rest == [e] && [e][..0] == [];
    } else {
      var n := |rest| - 1;
      FirstEvent(p, e, rest[..n]);
      assert ([e] + rest)[..n + 1] == [e] + rest[..n];
    }
  }

  lemma OneEventEarlier(p: Process, e: Event, rest: seq<Event>, request: Request)
    requires !e.Admit? && Misleads(After(p, e), request, rest)
    ensures Misleads(p, request, [e] + rest)
  {
    FirstEvent(p, e, rest);
  }

  /** What to let happen next: the target comes in, the permit is taken, the phase goes on
      to see its target, and mongod is started on the other keyfile. */
  function Overtaking(p: Process, request: Request): Event
    requires p.held.Some?
  {
    if p.loaded == request.Target() && p.arm.Head? then Notified
    else if p.loaded == request.Target() && !p.held.value.stage.Sees? then
      match p.held.value.stage
      case Admitted => Checks
      case Checked => Intends(true)
      case Wrote => Announced
      case _ => Seen
    else if p.arm.Handing? then KeyfileWritten(true)
    else if p.arm.Written? then Respawned(true)
    else KeyfileLoaded
  }

  /** A phase on its way to a misleading OK. */
  predicate OnTheWay(p: Process, request: Request) {
    && Coherent(p) && p.alive && p.held.Some? && p.held.value.request == request
    && (p.held.value.stage.Sees? ==> p.loaded == request.Target())
    && Overtaken(p, request.Target())
  }

  function EventsLeft(p: Process, request: Request): nat
    requires p.held.Some?
  {
    (if p.loaded != request.Target() then 20 else if p.arm.Head? then 10 else 0)
    + (match p.held.value.stage case Admitted => 4 case Checked => 3 case Wrote => 2 case Waits => 1 case Sees => 0)
    + (match p.arm case Head => 0 case Handing(_) => 3 case Written(_) => 2 case Spawned(_) => 1)
  }

  lemma PhaseGoesOn(p: Process, request: Request)
    requires OnTheWay(p, request) && p.loaded == request.Target() && !p.arm.Head? && !p.held.value.stage.Sees?
    ensures var q := After(p, Overtaking(p, request));
            && q.alive && q.held.Some? && q.held.value.request == request && q.loaded == p.loaded && q.arm == p.arm
            && EventsLeft(q, request) < EventsLeft(p, request)
  {
  }

  lemma SupervisorGoesOn(p: Process, request: Request)
    requires OnTheWay(p, request) && !(p.held.value.stage.Sees? && p.arm.Spawned?)
    requires p.loaded != request.Target() || p.arm.Head? || p.held.value.stage.Sees?
    ensures var q := After(p, Overtaking(p, request));
            && q.alive && q.held == p.held && q.pin == p.pin && (q.loaded == p.loaded || q.loaded == request.Target())
            && (q.arm.Head? ==> q.loaded == request.Target() != p.loaded && q.notified == p.notified)
            && (!q.arm.Head? ==> q.loaded == p.loaded)
            && (!p.arm.Head? && !q.arm.Head? ==> q.arm.target == p.arm.target && q.notified == p.notified)
            && EventsLeft(q, request) < EventsLeft(p, request)
  {
  }

  lemma OneEventOvertakes(p: Process, request: Request)
    requires OnTheWay(p, request) && !(p.held.value.stage.Sees? && p.arm.Spawned?)
    ensures var q := After(p, Overtaking(p, request)); OnTheWay(q, request) && EventsLeft(q, request) < EventsLeft(p, request)
  {
    EventKeepsCoherent(p, Overtaking(p, request));
    if p.loaded == request.Target() && !p.arm.Head? && !p.held.value.stage.Sees? {
      PhaseGoesOn(p, request);
    } else {
      SupervisorGoesOn(p, request);
    }
  }

  /** An overtaken phase carried to the point where it may answer OK. */
  lemma AnOvertakenPhaseMisleads(p: Process, request: Request) returns (events: seq<Event>)
    requires OnTheWay(p, request)
    ensures Misleads(p, request, events)
    decreases EventsLeft(p, request)
  {
    if p.held.value.stage.Sees? && p.arm.Spawned? {
      events := [];
    } else {
      var e := Overtaking(p, request);
      OneEventOvertakes(p, request);
      var rest := AnOvertakenPhaseMisleads(After(p, e), request);
      OneEventEarlier(p, e, rest, request);
      events := [e] + rest;
    }
  }

  /** At any moment of a phase before it sees its target: it may come to its OK while
      mongod runs another keyfile exactly if it is overtaken at that moment. */
  lemma OkIsHonestExactlyWhenSettled(p: Process, request: Request)
    requires Coherent(p) && p.alive && p.held.Some? && p.held.value.request == request && !p.held.value.stage.Sees?
    ensures (exists events :: Misleads(p, request, events)) <==> Overtaken(p, request.Target())
  {
    if Overtaken(p, request.Target()) {
      var events := AnOvertakenPhaseMisleads(p, request);
    } else {
      forall events ensures !Misleads(p, request, events) {
        if Misleads(p, request, events) {
          RunKeepsHonest(p, events, request);
        }
      }
    }
  }

  /** Where a phase begins to wait, through either branch, that is: the target is loaded
      and a restart is under way, or a permit leads to one. */
  lemma WaitingForItIsHonestExactlyWhenSettled(p: Process, request: Request, e: Event)
    requires Coherent(p) && p.alive && e in {Checks, Announced}
    requires p.held.Some? && !p.At(request, Waits) && After(p, e).At(request, Waits)
    ensures var q := After(p, e);
            (exists events :: Misleads(q, request, events)) <==> q.loaded == request.Target() && !Settled(q, request.Target())
  {
    EventKeepsCoherent(p, e);
    OkIsHonestExactlyWhenSettled(After(p, e), request);
  }

  /** A phase that pins its target while another keyfile is loaded never answers before
      mongod runs the target. */
  lemma PinningAnUnloadedTargetIsHonest(p: Process, request: Request, events: seq<Event>)
    requires Coherent(p) && p.alive && p.At(request, Checked) && p.loaded != request.Target()
    ensures !Misleads(After(p, Intends(true)), request, events)
  {
    EventKeepsCoherent(p, Intends(true));
    OkIsHonestExactlyWhenSettled(After(p, Intends(true)), request);
  }

  lemma OneMore(start: Process, events: seq<Event>, e: Event, before: Process, after: Process)
    requires AfterAll(start, events) == before && After(before, e) == after
    ensures AfterAll(start, events + [e]) == after
  {
    assert (events + [e])[..|events|] == events;
  }

  lemma OneMoreEvent(start: Process, events: seq<Event>, e: Event, before: Process) returns (more: seq<Event>, after: Process)
    requires AfterAll(start, events) == before
    ensures more == events + [e] && after == After(before, e) && AfterAll(start, more) == after
  {
    more, after := events + [e], After(before, e);
    OneMore(start, events, e, before, after);
  }

  function SingleKey(password: Password): Process {
    var keyfile := [Derived(password)];
    Process(Some(AuthPin(password, Some(keyfile))), keyfile, keyfile, keyfile, false, Head, None, true)
  }

  function StartsOn(password: Password): HaBoot {
    HaBoot(password, password, None, None, _ => None, true)
  }

  lemma BootsOnItsKey(password: Password)
    ensures Booted(Some(AuthPin(password, Some([Derived(password)]))), StartsOn(password)) == SingleKey(password)
  {
  }

  /** A whole branch that pins its target: admitted, checked, written, announced. */
  lemma OnePhasePins(start: Process, events: seq<Event>, request: Request, before: Process) returns (more: seq<Event>)
    requires AfterAll(start, events) == before && before.alive && before.held.None? && before.loaded != request.Target()
    ensures AfterAll(start, more) == before.(pin := Some(AuthPin(request.newPassword, Some(request.Target()))),
                                             notified := true, held := Some(Held(request, Waits)))
  {
    var p;
    more, p := OneMoreEvent(start, events, Admit(request, true), before);
    more, p := OneMoreEvent(start, more, Checks, p);
    more, p := OneMoreEvent(start, more, Intends(true), p);
    more, p := OneMoreEvent(start, more, Announced, p);
  }

  /** The supervisor's restart, up to the start of mongod. */
  lemma OneRestartStarts(start: Process, events: seq<Event>, before: Process) returns (more: seq<Event>)
    requires AfterAll(start, events) == before && before.alive && before.arm.Handing?
    ensures var target := before.arm.target;
            AfterAll(start, more) == before.(disk := target, spawned := target, arm := Spawned(target)) && events <= more
  {
    var p;
    more, p := OneMoreEvent(start, events, KeyfileWritten(true), before);
    more, p := OneMoreEvent(start, more, Respawned(true), p);
  }

  /** The first KeyPrepare runs out of time after its restart was begun, and a KeyCommit
      back to the old key finds it still loaded. From a boot, the KeyCommit can answer OK,
      and mongod has been started on the overlap. */
  lemma AnOkWhileAnotherKeyfileStarts(a: Password, b: Password) returns (events: seq<Event>)
    requires a != b
    ensures var p := AfterAll(Booted(Some(AuthPin(a, Some([Derived(a)]))), StartsOn(a)), events);
            && p.alive && p.At(Request(KeyCommit, a, b), Sees)
            && Request(KeyCommit, a, b).Target() == [Derived(a)] && p.spawned == [Derived(a), Derived(b)]
  {
    var start, forth, back := SingleKey(a), Request(KeyPrepare, b, a), Request(KeyCommit, a, b);
    BootsOnItsKey(a);
    events := OnePhasePins(start, [], forth, start);
    var p := AfterAll(start, events);
    events, p := OneMoreEvent(start, events, Notified, p);
    events, p := OneMoreEvent(start, events, TimedOut, p);
    events, p := OneMoreEvent(start, events, Admit(back, true), p);
    events, p := OneMoreEvent(start, events, Checks, p);
    events, p := OneMoreEvent(start, events, Seen, p);
    events := OneRestartStarts(start, events, p);
  }

  /** A KeyPrepare back and one forth again run out of time, the restart into the first
      one's overlap taken up and the permit for the second one's given. */
  lemma TwoPreparesRunOutOfTime(a: Password, b: Password) returns (events: seq<Event>)
    requires a != b
    ensures var forth, back := Request(KeyPrepare, b, a), Request(KeyPrepare, a, b);
            AfterAll(SingleKey(a), events) == SingleKey(a).(pin := Some(AuthPin(a, Some(back.Target()))), notified := true,
                                                            arm := Handing(forth.Target()))
  {
    var start, forth, back := SingleKey(a), Request(KeyPrepare, b, a), Request(KeyPrepare, a, b);
    events := OnePhasePins(start, [], forth, start);
    var p := AfterAll(start, events);
    events, p := OneMoreEvent(start, events, Notified, p);
    events, p := OneMoreEvent(start, events, TimedOut, p);
    events := OnePhasePins(start, events, back, p);
    p := AfterAll(start, events);
    events, p := OneMoreEvent(start, events, TimedOut, p);
  }

  /** The other way to it: a repeated KeyPrepare does not find its target loaded, but the
      restart into it ends while the set is asked, and the supervisor goes on to the next. */
  lemma AnOkAfterALatePinWrite(a: Password, b: Password) returns (checked: seq<Event>, events: seq<Event>)
    requires a != b
    ensures var request, start := Request(KeyPrepare, b, a), Booted(Some(AuthPin(a, Some([Derived(a)]))), StartsOn(a));
            && checked <= events
            && AfterAll(start, checked).At(request, Checked) && AfterAll(start, checked).loaded != request.Target()
            && AfterAll(start, events).alive && AfterAll(start, events).At(request, Sees)
            && AfterAll(start, events).spawned == Request(KeyPrepare, a, b).Target() != request.Target()
  {
    var start, request := SingleKey(a), Request(KeyPrepare, b, a);
    BootsOnItsKey(a);
    events := TwoPreparesRunOutOfTime(a, b);
    var p := AfterAll(start, events);
    events, p := OneMoreEvent(start, events, Admit(request, true), p);
    events, p := OneMoreEvent(start, events, Checks, p);
    checked := events;
    assert request.Target()[0] != Request(KeyPrepare, a, b).Target()[0];
    events := OneRestartStarts(start, events, p);
    p := AfterAll(start, events);
    events, p := OneMoreEvent(start, events, KeyfileLoaded, p);
    events, p := OneMoreEvent(start, events, Notified, p);
    events, p := OneMoreEvent(start, events, Intends(true), p);
    events, p := OneMoreEvent(start, events, Announced, p);
    events, p := OneMoreEvent(start, events, Seen, p);
    events := OneRestartStarts(start, events, p);
  }

  // ---------------------------------------------------------------- no needless restart

  /** Supervised starts of mongod, and changes of the keyfile intent on the volume. */
  function Restarts(p: Process, events: seq<Event>): nat {
    if events == [] then 0
    else
      var before := AfterAll(p, events[..|events| - 1]);
      Restarts(p, events[..|events| - 1]) + Started(before, events[|events| - 1])
  }

  function Started(p: Process, e: Event): nat {
    if e.Respawned? && e.ok && p.alive && p.arm.Written? then 1 else 0
  }

  function Intents(p: Process, events: seq<Event>): nat {
    if events == [] then 0
    else
      var before := AfterAll(p, events[..|events| - 1]);
      Intents(p, events[..|events| - 1]) + Intended(before, events[|events| - 1])
  }

  function Intended(p: Process, e: Event): nat {
    if After(p, e).View().PinnedKeys() != p.View().PinnedKeys() then 1 else 0
  }

  /** Starts a process still owes to what is pinned already. */
  function Owed(p: Process): nat {
    if !p.alive then 0
    else
      var running := if p.arm.Head? then p.loaded else p.arm.target;
      (if p.arm.Handing? || p.arm.Written? then 1 else 0)
      + (if p.View().Pinned() && p.View().PinnedKeys() != running then 1 else 0)
  }

  /** What one event starts, and leaves owed, it has changed or was owed. */
  lemma OneEventPays(p: Process, e: Event)
    requires Coherent(p)
    ensures Started(p, e) + Owed(After(p, e)) <= Intended(p, e) + Owed(p)
  {
  }

  /** Every restart is paid for by one change of the keyfile intent, however often
      phases, notifications and timeouts repeat. */
  lemma {:induction false} EveryRestartHasItsIntent(p: Process, events: seq<Event>)
    requires Coherent(p)
    ensures Restarts(p, events) + Owed(AfterAll(p, events)) <= Intents(p, events) + Owed(p)
  {
    if events != [] {
      EveryRestartHasItsIntent(p, events[..|events| - 1]);
      RunKeepsCoherent(p, events[..|events| - 1]);
      OneEventPays(AfterAll(p, events[..|events| - 1]), events[|events| - 1]);
    }
  }

  /** A process at rest on the keyfile it pinned, and phases for just that keyfile. */
  predicate Rests(p: Process, keyfile: Keyfile) {
    && p.alive && p.arm.Head? && p.loaded == keyfile && p.View().Pinned() && p.View().PinnedKeys() == keyfile
    && (p.held.Some? ==> p.held.value.request.Target() == keyfile)
  }

  lemma RepeatRests(p: Process, keyfile: Keyfile, e: Event)
    requires Rests(p, keyfile) && !e.Crash? && (e.Admit? ==> e.request.Target() == keyfile)
    ensures Rests(After(p, e), keyfile) && Started(p, e) == 0
  {
  }

  /** It answers any number of repeats of such a phase without a restart. */
  lemma {:induction false} RepeatsCauseNoRestart(p: Process, keyfile: Keyfile, events: seq<Event>)
    requires Rests(p, keyfile)
    requires forall i | 0 <= i < |events| ::
               !events[i].Crash? && (events[i].Admit? ==> events[i].request.Target() == keyfile)
    ensures Restarts(p, events) == 0 && Rests(AfterAll(p, events), keyfile)
  {
    if events != [] {
      RepeatsCauseNoRestart(p, keyfile, events[..|events| - 1]);
      RepeatRests(AfterAll(p, events[..|events| - 1]), keyfile, events[|events| - 1]);
    }
  }
}
