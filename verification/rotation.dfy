/** The two-pass keyfile rotation as a distributed protocol.

    Every member has a durable pin, the keyfile its mongod was started with, at
    most one keyfile a restart is under way for, and at most one request holding
    its rotation lock. A coordinator moves the database to the new password, has
    every member confirm that it accepts it, sends KeyPrepare to every member and,
    once all of them answered OK, KeyCommit. Requests and replies may be lost, late
    or repeated, restarts may be refused, and any member may crash at any moment and
    boot from its pin. A rotation that cannot finish is compensated by one in the
    opposite direction.

    A member refuses a request whose new password its own mongod does not accept.
    How far that protects it from requests of an earlier direction depends on how
    late a request can be, and on whether a password may come back. */
module Rotation {
  import opened Wrappers
  import opened AuthPins

  datatype Operation = KeyPrepare | KeyCommit

  /** The keyfile one pass moves a member to. */
  function TargetKeyfile(newPassword: Password, currentPassword: Password, overlap: bool): Keyfile {
    var newKey := Derived(newPassword);
    var oldKey := Derived(currentPassword);
    if overlap && oldKey != newKey then [oldKey, newKey] else [newKey]
  }

  datatype Request = Request(op: Operation, newPassword: Password, currentPassword: Password)
  {
    function Target(): Keyfile {
      TargetKeyfile(newPassword, currentPassword, op.KeyPrepare?)
    }
  }

  /** How far the request that holds the lock has come: its password was accepted, its
      target was found not loaded and the set is asked whether it is ready, its target
      is pinned, it waits for the target, or it saw the target loaded and asks again. */
  datatype Stage = Admitted | Checked | Wrote | Waits | Sees

  datatype Held = Held(request: Request, stage: Stage)

  datatype Member = Member(pin: Option<AuthPin>, loaded: Keyfile, notified: bool,
                           restarting: Option<Keyfile>, held: Option<Held>)
  {
    predicate Pinned() {
      pin.Some? && pin.value.keyfile.Some?
    }

    function PinnedKeys(): Keyfile {
      if Pinned() then pin.value.keyfile.value else []
    }

    /** A request holds the lock and may still pin its target. */
    predicate Pending() {
      held.Some? && (held.value.stage.Admitted? || held.value.stage.Checked?)
    }

    /** The key is in everything this member runs with or is on its way to. */
    predicate Holds(key: Key) {
      && key in loaded
      && key in PinnedKeys()
      && (restarting.Some? ==> key in restarting.value)
      && (Pending() ==> key in held.value.request.Target())
    }

    predicate Only(keyfiles: set<Keyfile>) {
      && Pinned()
      && loaded in keyfiles
      && PinnedKeys() in keyfiles
      && (restarting.Some? ==> restarting.value in keyfiles)
      && (Pending() ==> held.value.request.Target() in keyfiles)
    }

    /** Once `keyfile` is anywhere along request, pin, restart, loaded, everything
        nearer the request holds `key`. */
    predicate Upward(keyfile: Keyfile, key: Key) {
      && Pinned()
      && (loaded == keyfile ==> Holds(key))
      && (restarting == Some(keyfile) ==> key in PinnedKeys() && PendingHolds(key))
      && (PinnedKeys() == keyfile ==> PendingHolds(key))
    }

    predicate PendingHolds(key: Key) {
      Pending() ==> key in held.value.request.Target()
    }

    /** The same for the keyfile itself: nothing follows it but itself. */
    predicate Last(keyfile: Keyfile) {
      && Pinned()
      && (loaded == keyfile ==> Only({keyfile}))
      && (restarting == Some(keyfile) ==> PinnedKeys() == keyfile && PendingIs(keyfile))
      && (PinnedKeys() == keyfile ==> PendingIs(keyfile))
    }

    predicate PendingIs(keyfile: Keyfile) {
      Pending() ==> held.value.request.Target() == keyfile
    }

    /** No trace of `keyfile`, nor of a request for it. */
    predicate Lacks(keyfile: Keyfile) {
      && loaded != keyfile && PinnedKeys() != keyfile && restarting != Some(keyfile)
      && (held.Some? ==> held.value.request.Target() != keyfile)
    }

    predicate Saw(request: Request) {
      held == Some(Held(request, Sees))
    }
  }

  // ---------------------------------------------------------------- one member's steps

  /** A key phase takes the lock, unless mongod refuses its new password. */
  function Accept(m: Member, request: Request, works: bool): Member {
    if m.held.Some? || !works then m else m.(held := Some(Held(request, Admitted)))
  }

  /** The phase finds its target loaded, or asks whether the set is ready for a restart. */
  function Check(m: Member): Member {
    if m.held.None? || !m.held.value.stage.Admitted? then m
    else
      var request := m.held.value.request;
      m.(held := Some(Held(request, if m.loaded == request.Target() then Waits else Checked)))
  }

  /** The set is ready and the target is pinned, whatever is loaded by now; a set that
      is not ready, or a pin that cannot be written, ends the phase. */
  function Intend(m: Member, ready: bool): Member {
    if m.held.None? || !m.held.value.stage.Checked? then m
    else if !ready then m.(held := None)
    else
      var request := m.held.value.request;
      m.(pin := Some(AuthPin(request.newPassword, Some(request.Target()))), held := Some(Held(request, Wrote)))
  }

  /** The supervisor is asked for a restart. */
  function Announce(m: Member): Member {
    if m.held.None? || !m.held.value.stage.Wrote? then m
    else m.(notified := true, held := Some(m.held.value.(stage := Waits)))
  }

  /** A poll of the wait finds the target loaded. */
  function See(m: Member): Member {
    if m.held.Some? && m.held.value.stage.Waits? && m.loaded == m.held.value.request.Target()
    then m.(held := Some(m.held.value.(stage := Sees))) else m
  }

  /** The poll's other half: with a ready set the phase answers OK. */
  function Answer(m: Member, ready: bool): Member {
    if m.held.None? || !m.held.value.stage.Sees? then m
    else if ready then m.(held := None)
    else m.(held := Some(m.held.value.(stage := Waits)))
  }

  /** Out of time, at any of the phase's waits. It does not wait between the pin write
      and the notification. */
  function Expire(m: Member): Member {
    if m.held.Some? && m.held.value.stage.Wrote? then m else m.(held := None)
  }

  /** The supervisor takes the notification and reads the pin. */
  function Capture(m: Member): Member {
    if !m.notified || m.restarting.Some? then m
    else if !m.Pinned() || m.loaded == m.PinnedKeys() then m.(notified := false)
    else m.(notified := false, restarting := Some(m.PinnedKeys()))
  }

  /** The handoff was refused, or mongod now runs what was read. */
  function EndRestart(m: Member, handoff: bool): Member {
    if m.restarting.None? then m
    else if handoff then m.(loaded := m.restarting.value, restarting := None)
    else m.(restarting := None)
  }

  /** A writer that only knows a password and the loaded keyfile. */
  function PinPassword(m: Member, password: Password): Member {
    m.(pin := Some(WithPassword(m.pin, password, Some(m.loaded))))
  }

  /** Crash and boot: reconcile with a live peer, resolve, load. */
  function Reboot(m: Member, boot: HaBoot): Member {
    var pin := Reconciled(m.pin, boot);
    var creds := ResolveBootCredentials(pin, boot.envPassword, Some(boot.rsKey), boot.liveSetKeyfile);
    Member(pin, if creds.keyfile.Some? then creds.keyfile.value else [], false, None, None)
  }

  // ---------------------------------------------------------------- the cluster

  /** When a request still under way is gone: when its direction is reversed, when its
      rotation is over, or never. A request that holds a lock is not affected. `reuse`
      says that a rotation may take a password some request under way names as its new one. */
  datatype Horizon = Direction | Rotation | Unbounded(reuse: bool)

  /** `from` and `to` are the passwords of the direction under way. `database` is the
      root password the primary holds, `accepted` what each member's own mongod
      accepts, `changed` and `checked` whether this direction's Database phase and
      which Member phases are done, `replied` the OK answers to KeyPrepare, `live` the
      requests that may still arrive. */
  datatype Cluster = Cluster(members: seq<Member>, accepted: seq<Password>, database: Password,
                             from: Password, to: Password, changed: bool, checked: set<nat>,
                             committing: bool, reversals: nat, replied: set<nat>, live: set<Request>)
  {
    function Prepare(): Request {
      Request(KeyPrepare, to, from)
    }

    function Commit(): Request {
      Request(KeyCommit, to, from)
    }

    /** What the opposite direction prepares with. */
    function Reverse(): Request {
      Request(KeyPrepare, from, to)
    }

    function Overlap(): Keyfile {
      Prepare().Target()
    }

    function Single(): Keyfile {
      Commit().Target()
    }

    predicate AllChecked() {
      forall i | 0 <= i < |members| :: i in checked
    }

    predicate AllHold(key: Key) {
      forall i | 0 <= i < |members| :: members[i].Holds(key)
    }

    predicate Clean(password: Password) {
      && database == password && |accepted| == |members|
      && forall i | 0 <= i < |members| ::
        && accepted[i] == password
        && members[i].Pinned() && members[i].PinnedKeys() == [Derived(password)]
        && members[i].loaded == [Derived(password)]
        && members[i].restarting.None? && members[i].held.None?
    }
  }

  datatype Step =
    | DatabaseStep
    | ReplicateStep(i: nat)
    | MemberStep(i: nat)
    | SendPrepareStep
    | StartCommitStep
    | AcceptStep(i: nat, request: Request)
    | CheckStep(i: nat)
    | IntendStep(i: nat, ready: bool)
    | AnnounceStep(i: nat)
    | SeeStep(i: nat)
    | AnswerStep(i: nat, ready: bool)
    | ExpireStep(i: nat)
    | CaptureStep(i: nat)
    | EndRestartStep(i: nat, handoff: bool)
    | RebootStep(i: nat, boot: HaBoot)
    | PinPasswordStep(i: nat, password: Password)
    | ReverseStep
    | NextRotationStep(password: Password)
  {
    predicate AtMember() {
      !DatabaseStep? && !SendPrepareStep? && !StartCommitStep? && !ReverseStep? && !NextRotationStep?
    }

    /** Steps that change nothing but one member. */
    predicate OfMember() {
      AtMember() && !ReplicateStep? && !MemberStep?
    }
  }

  /** The keyfiles a boot is handed, for whichever password and by whichever peer, are
      ones that members have loaded. */
  ghost predicate HandedOut(c: Cluster, boot: HaBoot) {
    && (forall p | boot.discover(p).Some? :: Loaded(c, boot.discover(p).value))
    && (boot.liveSetKeyfile.Some? ==> Loaded(c, boot.liveSetKeyfile.value))
  }

  predicate Loaded(c: Cluster, keyfile: Keyfile) {
    exists j | 0 <= j < |c.members| :: c.members[j].loaded == keyfile
  }

  /** `limit` bounds how often a rotation may be turned around before it is brought to
      a clean end. */
  ghost predicate Enabled(c: Cluster, step: Step, limit: nat, horizon: Horizon) {
    && |c.accepted| == |c.members|
    && (step.AtMember() ==> step.i < |c.members|)
    && match step
       case MemberStep(i) => c.changed && c.accepted[i] == c.to && c.members[i].held.None?
       case SendPrepareStep => c.AllChecked()
       case StartCommitStep => c.AllChecked() && forall i | 0 <= i < |c.members| :: i in c.replied
       case AcceptStep(_, request) => request in c.live
       case RebootStep(_, boot) => HandedOut(c, boot)
       case ReverseStep => c.reversals < limit
       case NextRotationStep(password) =>
         c.Clean(c.to) && (horizon.Unbounded? && !horizon.reuse ==> password == c.to || Fresh(c, password))
       case _ => true
  }

  predicate Fresh(c: Cluster, password: Password) {
    forall q | q in c.live :: q.newPassword != password
  }

  function MemberAfter(c: Cluster, step: Step): Member
    requires step.AtMember() && step.i < |c.members| == |c.accepted|
  {
    var m := c.members[step.i];
    match step
    case MemberStep(_) => PinPassword(m, c.to)
    case AcceptStep(i, request) => Accept(m, request, c.accepted[i] == request.newPassword)
    case CheckStep(_) => Check(m)
    case IntendStep(_, ready) => Intend(m, ready)
    case AnnounceStep(_) => Announce(m)
    case SeeStep(_) => See(m)
    case AnswerStep(_, ready) => Answer(m, ready)
    case ExpireStep(_) => Expire(m)
    case CaptureStep(_) => Capture(m)
    case EndRestartStep(_, handoff) => EndRestart(m, handoff)
    case RebootStep(_, boot) => Reboot(m, boot)
    case PinPasswordStep(_, password) => PinPassword(m, password)
    case _ => m
  }

  /** The answer counts for the coordinator: an OK to this direction's KeyPrepare. */
  predicate Replies(c: Cluster, step: Step)
    requires step.AtMember() && step.i < |c.members|
  {
    step.AnswerStep? && step.ready && c.AllChecked() && c.members[step.i].Saw(c.Prepare())
  }

  function Apply(c: Cluster, step: Step, horizon: Horizon): Cluster {
    if step.AtMember() then
      if step.i < |c.members| == |c.accepted| then
        var after := c.(members := c.members[step.i := MemberAfter(c, step)]);
        if step.ReplicateStep? then after.(accepted := c.accepted[step.i := c.database])
        else if step.MemberStep? then after.(checked := c.checked + {step.i})
        else if Replies(c, step) then after.(replied := c.replied + {step.i})
        else after
      else c
    else
      match step
      case DatabaseStep => c.(database := c.to, changed := true)
      case SendPrepareStep => c.(live := c.live + {c.Prepare()})
      case StartCommitStep => c.(committing := true, live := c.live + {c.Commit()})
      case ReverseStep =>
        c.(from := c.to, to := c.from, changed := false, checked := {}, committing := false,
           reversals := c.reversals + 1, replied := {}, live := if horizon.Direction? then {} else c.live)
      case NextRotationStep(password) =>
        Cluster(c.members, c.accepted, c.database, c.to, password, false, {}, false, 0, {},
                if horizon.Unbounded? then c.live else {})
      case _ => c
  }

  /** The cluster after a run, and whether every step of it was possible. */
  function Run(c: Cluster, steps: seq<Step>, horizon: Horizon): Cluster {
    if steps == [] then c else Apply(Run(c, steps[..|steps| - 1], horizon), steps[|steps| - 1], horizon)
  }

  ghost predicate Possible(c: Cluster, steps: seq<Step>, limit: nat, horizon: Horizon) {
    steps == [] ||
    (Possible(c, steps[..|steps| - 1], limit, horizon)
     && Enabled(Run(c, steps[..|steps| - 1], horizon), steps[|steps| - 1], limit, horizon))
  }

  /** Where a rotation starts: what Preflight checks on every member, each pin
      equal to the loaded key. */
  predicate Initial(c: Cluster) {
    && c.Clean(c.from) && !c.changed && c.checked == {} && !c.committing
    && c.reversals == 0 && c.replied == {} && c.live == {}
  }

  /** One key is in every loaded and every pinned keyfile. */
  ghost predicate SharesAKey(c: Cluster) {
    exists key :: c.AllHold(key)
  }

  // ---------------------------------------------------------------- the invariant

  function MaxReversals(horizon: Horizon): nat {
    match horizon
    case Direction => 2
    case Rotation => 1
    case Unbounded(_) => 0
  }

  /** As many reversals as the lateness of requests allows, with a new password for
      every rotation when nothing bounds it. */
  predicate Within(limit: nat, horizon: Horizon) {
    limit <= MaxReversals(horizon) && (horizon.Unbounded? ==> !horizon.reuse)
  }

  /** The database is on its way from one password to the other, and a member that
      confirmed the new one accepts no other. */
  predicate DatabaseFits(c: Cluster) {
    && |c.accepted| == |c.members|
    && c.database in {c.from, c.to} && (c.changed ==> c.database == c.to)
    && (forall i | 0 <= i < |c.accepted| :: c.accepted[i] in {c.from, c.to})
    && (forall i | i in c.checked :: i < |c.members| && c.changed && c.accepted[i] == c.to)
    && (c.committing ==> c.AllChecked())
    && (forall i | 0 <= i < |c.members| :: c.members[i].Pinned() && HeldFits(c, c.members[i], i in c.checked))
  }

  /** A confirmed member holds only requests for the new password. */
  predicate HeldFits(c: Cluster, m: Member, checked: bool) {
    checked && m.held.Some? ==> m.held.value.request.newPassword == c.to
  }

  /** `key` is common to everyone, and no request that some mongod accepts drops it. */
  predicate Carries(c: Cluster, key: Key) {
    && c.AllHold(key)
    && forall q | q in c.live && q.newPassword in {c.from, c.to} :: key in q.Target()
  }

  /** A member, in the first two directions of a rotation, before the commit. */
  predicate EarlyMember(c: Cluster, m: Member, replied: bool) {
    && m.Last(c.Overlap())
    && (c.AllChecked() || m.Lacks(c.Overlap()))
    && (replied || (c.AllChecked() && m.Saw(c.Prepare())) ==> m.Only({c.Overlap()}))
  }

  predicate EarlyLive(c: Cluster) {
    && (c.AllChecked() || c.Prepare() !in c.live)
    && forall q | q in c.live && q.newPassword == c.to :: q == c.Prepare()
  }

  /** What a later reversal needs of a member. */
  predicate Reversible(c: Cluster, m: Member, horizon: Horizon) {
    && (c.reversals == 0 && !horizon.Unbounded? ==>
          && m.Only({[Derived(c.from)], c.Overlap(), c.Single()})
          && (m.held.Some? ==> m.held.value.request in {c.Prepare(), c.Commit()}))
    && (c.reversals == 1 && horizon.Direction? && !c.committing ==>
          && m.Upward(c.Reverse().Target(), Derived(c.from)) && m.PendingHolds(Derived(c.from))
          && (m.Saw(c.Reverse()) ==> m.Holds(Derived(c.from))))
  }

  predicate LiveReversible(c: Cluster, horizon: Horizon) {
    horizon.Direction? || (horizon.Rotation? && c.reversals == 0) ==>
      c.live <= (if c.committing then {c.Prepare(), c.Commit()} else {c.Prepare()})
  }

  /** What the invariant asks of one member. */
  predicate Fits(c: Cluster, m: Member, replied: bool, horizon: Horizon) {
    && m.Pinned()
    && (c.committing ==> m.Holds(Derived(c.to)))
    && (c.from != c.to ==>
          && Reversible(c, m, horizon)
          && (!c.committing && c.reversals <= 1 ==> EarlyMember(c, m, replied))
          && (c.committing && c.reversals <= 1 ==> m.Only({c.Overlap(), c.Single()}))
          && (!c.committing && c.reversals > 1 ==>
                && m.Upward(c.Overlap(), Derived(c.to))
                && (replied || m.Saw(c.Prepare()) ==> m.Holds(Derived(c.to)))))
  }

  predicate LiveFits(c: Cluster, horizon: Horizon) {
    && (!c.committing ==> Carries(c, Derived(c.from)) || Carries(c, Derived(c.to)))
    && (c.from == c.to ==> c.AllHold(Derived(c.to)))
    && (c.from != c.to ==>
          && LiveReversible(c, horizon)
          && (!c.committing && c.reversals <= 1 ==> EarlyLive(c))
          && (c.committing && c.reversals <= 1 ==> forall q | q in c.live && q.newPassword == c.to :: q in {c.Prepare(), c.Commit()})
          && (!c.committing && c.reversals > 1 ==> (c.AllChecked() || c.live == {})))
  }

  predicate Invariant(c: Cluster, horizon: Horizon) {
    && DatabaseFits(c)
    && c.reversals <= MaxReversals(horizon)
    && LiveFits(c, horizon)
    && forall i | 0 <= i < |c.members| :: Fits(c, c.members[i], i in c.replied, horizon)
  }

  // ---------------------------------------------------------------- one member moves

  /** A member that may stand in another's place: it fits, and keeps what is common. */
  predicate Replaces(c: Cluster, m: Member, checked: bool, replied: bool, horizon: Horizon) {
    && HeldFits(c, m, checked)
    && Fits(c, m, replied, horizon)
    && (forall key | key in {Derived(c.from), Derived(c.to)} && Carries(c, key) :: m.Holds(key))
    && (c.from == c.to ==> m.Holds(Derived(c.to)))
  }

  /** The invariant asks of a member what the two agree on. */
  lemma FitsAlike(c: Cluster, d: Cluster, m: Member, checked: bool, replied: bool, horizon: Horizon)
    requires d.from == c.from && d.to == c.to && d.reversals == c.reversals && d.committing == c.committing
    requires d.AllChecked() == c.AllChecked()
    ensures Fits(d, m, replied, horizon) == Fits(c, m, replied, horizon)
    ensures HeldFits(d, m, checked) == HeldFits(c, m, checked)
  {
  }

  lemma LiveAsBefore(c: Cluster, i: nat, m: Member, horizon: Horizon)
    requires Invariant(c, horizon) && i < |c.members| && Replaces(c, m, i in c.checked, i in c.replied, horizon)
    ensures LiveFits(c.(members := c.members[i := m]), horizon)
  {
    var after := c.(members := c.members[i := m]);
    assert after.AllChecked() == c.AllChecked();
    forall key | m.Holds(key) && c.AllHold(key) ensures after.AllHold(key) {
    }
    assert forall key | key in {Derived(c.from), Derived(c.to)} && Carries(c, key) :: Carries(after, key);
  }

  lemma OneMemberMoves(c: Cluster, i: nat, m: Member, horizon: Horizon)
    requires Invariant(c, horizon) && i < |c.members| && Replaces(c, m, i in c.checked, i in c.replied, horizon)
    ensures Invariant(c.(members := c.members[i := m]), horizon)
  {
    var after := c.(members := c.members[i := m]);
    assert after.AllChecked() == c.AllChecked();
    LiveAsBefore(c, i, m, horizon);
    forall j | 0 <= j < |after.members|
      ensures Fits(after, after.members[j], j in after.replied, horizon)
      ensures HeldFits(after, after.members[j], j in after.checked) && after.members[j].Pinned()
    {
      FitsAlike(c, after, after.members[j], j in c.checked, j in c.replied, horizon);
    }
  }

  /** Keyfiles only flow from the request to the pin, on to the restart and into mongod. */
  predicate Flows(m: Member, n: Member) {
    && m.Pinned() && n.Pinned()
    && (n.held.Some? ==> m.held.Some? && n.held.value.request == m.held.value.request)
    && (n.Pending() ==> m.Pending() && n.PinnedKeys() == m.PinnedKeys())
    && (n.PinnedKeys() == m.PinnedKeys() || (m.Pending() && n.PinnedKeys() == m.held.value.request.Target()))
    && (n.restarting.None? || n.restarting == m.restarting || n.restarting == Some(m.PinnedKeys()))
    && (n.loaded == m.loaded || m.restarting == Some(n.loaded) || (n.loaded == m.PinnedKeys() && n.restarting.None?))
  }

  lemma FlowKeepsKeys(m: Member, n: Member, key: Key)
    requires Flows(m, n)
    ensures m.Holds(key) ==> n.Holds(key)
    ensures m.PendingHolds(key) ==> n.PendingHolds(key)
  {
  }

  lemma FlowKeepsKeyfiles(m: Member, n: Member, keyfiles: set<Keyfile>)
    requires Flows(m, n)
    ensures m.Only(keyfiles) ==> n.Only(keyfiles)
  {
  }

  lemma FlowKeepsOrder(m: Member, n: Member, keyfile: Keyfile, key: Key)
    requires Flows(m, n) && key in keyfile
    ensures m.Upward(keyfile, key) ==> n.Upward(keyfile, key)
    ensures m.Last(keyfile) ==> n.Last(keyfile)
    ensures m.Lacks(keyfile) ==> n.Lacks(keyfile)
  {
  }

  /** A phase sees its target only on a member that has loaded it. */
  predicate SeesLoaded(m: Member, n: Member) {
    n.held.Some? && n.held.value.stage.Sees? ==> n.held == m.held || n.loaded == n.held.value.request.Target()
  }

  lemma FlowIsReversible(c: Cluster, m: Member, n: Member, horizon: Horizon)
    requires Flows(m, n) && SeesLoaded(m, n) && Reversible(c, m, horizon)
    ensures Reversible(c, n, horizon)
  {
    FlowKeepsKeyfiles(m, n, {[Derived(c.from)], c.Overlap(), c.Single()});
    assert Derived(c.from) in c.Reverse().Target();
    FlowKeepsKeys(m, n, Derived(c.from));
    FlowKeepsOrder(m, n, c.Reverse().Target(), Derived(c.from));
  }

  lemma FlowFits(c: Cluster, m: Member, n: Member, replied: bool, horizon: Horizon)
    requires Flows(m, n) && SeesLoaded(m, n) && Fits(c, m, replied, horizon)
    ensures Fits(c, n, replied, horizon)
  {
    if c.from != c.to {
      FlowIsReversible(c, m, n, horizon);
    }
    assert Derived(c.to) in c.Overlap();
    FlowKeepsKeys(m, n, Derived(c.to));
    FlowKeepsOrder(m, n, c.Overlap(), Derived(c.to));
    FlowKeepsKeyfiles(m, n, {c.Overlap()});
    FlowKeepsKeyfiles(m, n, {c.Overlap(), c.Single()});
  }

  lemma FlowReplaces(c: Cluster, i: nat, n: Member, horizon: Horizon)
    requires Invariant(c, horizon) && i < |c.members| && Flows(c.members[i], n) && SeesLoaded(c.members[i], n)
    ensures Replaces(c, n, i in c.checked, i in c.replied, horizon)
  {
    var m := c.members[i];
    assert Fits(c, m, i in c.replied, horizon);
    FlowFits(c, m, n, i in c.replied, horizon);
    forall key | m.Holds(key) ensures n.Holds(key) {
      FlowKeepsKeys(m, n, key);
    }
    assert HeldFits(c, m, i in c.checked);
  }

  /** A request some mongod accepts carries what is common, and in a prepared
      direction it is one of that direction's own. */
  lemma AcceptReplaces(c: Cluster, i: nat, request: Request, horizon: Horizon)
    requires Invariant(c, horizon) && i < |c.members| && request in c.live
    ensures Replaces(c, Accept(c.members[i], request, c.accepted[i] == request.newPassword),
                     i in c.checked, i in c.replied, horizon)
  {
    var m := c.members[i];
    var after := Accept(m, request, c.accepted[i] == request.newPassword);
    assert Fits(c, m, i in c.replied, horizon);
    assert Derived(request.newPassword) in request.Target();
    assert c.AllChecked() ==> c.accepted[i] == c.to;
    if c.from != c.to {
      assert Reversible(c, after, horizon);
    }
  }

  lemma PhaseFlows(m: Member, ready: bool)
    requires m.Pinned()
    ensures Flows(m, Check(m)) && SeesLoaded(m, Check(m))
    ensures Flows(m, Intend(m, ready)) && SeesLoaded(m, Intend(m, ready))
    ensures Flows(m, Announce(m)) && SeesLoaded(m, Announce(m))
    ensures Flows(m, See(m)) && SeesLoaded(m, See(m))
    ensures Flows(m, Answer(m, ready)) && SeesLoaded(m, Answer(m, ready))
    ensures Flows(m, Expire(m)) && SeesLoaded(m, Expire(m))
  {
  }

  lemma RestartFlows(m: Member, handoff: bool)
    requires m.Pinned()
    ensures Flows(m, Capture(m)) && SeesLoaded(m, Capture(m))
    ensures Flows(m, EndRestart(m, handoff)) && SeesLoaded(m, EndRestart(m, handoff))
  {
  }

  lemma LocalStepFlows(c: Cluster, step: Step)
    requires step.AtMember() && !step.AcceptStep? && !step.RebootStep?
    requires step.i < |c.members| == |c.accepted| && c.members[step.i].Pinned()
    ensures Flows(c.members[step.i], MemberAfter(c, step)) && SeesLoaded(c.members[step.i], MemberAfter(c, step))
  {
    var m := c.members[step.i];
    match step
    case IntendStep(_, ready) => PhaseFlows(m, ready);
    case AnswerStep(_, ready) => PhaseFlows(m, ready);
    case CheckStep(_) => PhaseFlows(m, true);
    case AnnounceStep(_) => PhaseFlows(m, true);
    case SeeStep(_) => PhaseFlows(m, true);
    case ExpireStep(_) => PhaseFlows(m, true);
    case CaptureStep(_) => RestartFlows(m, true);
    case EndRestartStep(_, handoff) => RestartFlows(m, handoff);
    case _ =>
  }

  /** An OK to this direction's KeyPrepare says what the coordinator needs of it. */
  lemma RepliesFit(c: Cluster, step: Step, horizon: Horizon)
    requires Invariant(c, horizon) && step.AtMember() && step.i < |c.members| && Replies(c, step)
    ensures Fits(c, MemberAfter(c, step), true, horizon)
  {
    var m := c.members[step.i];
    assert Fits(c, m, step.i in c.replied, horizon);
    assert Fits(c, m, true, horizon);
    PhaseFlows(m, true);
    FlowFits(c, m, Answer(m, true), true, horizon);
  }

  /** Some key is common to everyone. */
  lemma SharedKey(c: Cluster, horizon: Horizon) returns (key: Key)
    requires Invariant(c, horizon)
    ensures c.AllHold(key)
  {
    if c.committing {
      key := Derived(c.to);
      forall i | 0 <= i < |c.members| ensures c.members[i].Holds(key) {
        assert Fits(c, c.members[i], i in c.replied, horizon);
      }
    } else {
      key := if Carries(c, Derived(c.to)) then Derived(c.to) else Derived(c.from);
    }
  }

  /** Inside a rotation boot reconciliation has nothing to repair: no live peer is
      ever disjoint, so a member boots with exactly the keyfile it pinned. */
  lemma BootKeepsThePin(c: Cluster, i: nat, boot: HaBoot, horizon: Horizon)
    requires Invariant(c, horizon) && i < |c.members| && HandedOut(c, boot)
    ensures var m := c.members[i];
            && m.Pinned()
            && Reboot(m, boot) == Member(m.pin, m.PinnedKeys(), false, None, None)
  {
    var m := c.members[i];
    var key := SharedKey(c, horizon);
    assert m.Holds(key);
    forall p | boot.discover(p).Some? ensures KeysOverlap(m.PinnedKeys(), boot.discover(p).value) {
      assert Loaded(c, boot.discover(p).value);
      var j :| 0 <= j < |c.members| && c.members[j].loaded == boot.discover(p).value;
      assert c.members[j].Holds(key);
    }
    OverlappingPeersChangeNothing(m.pin.value, boot);
  }

  lemma MemberReplaces(c: Cluster, step: Step, limit: nat, horizon: Horizon)
    requires Invariant(c, horizon) && step.AtMember() && Enabled(c, step, limit, horizon)
    ensures Replaces(c, MemberAfter(c, step), step.i in c.checked, step.i in c.replied, horizon)
  {
    if step.AcceptStep? {
      AcceptReplaces(c, step.i, step.request, horizon);
    } else {
      if step.RebootStep? {
        BootKeepsThePin(c, step.i, step.boot, horizon);
      } else {
        LocalStepFlows(c, step);
      }
      FlowReplaces(c, step.i, MemberAfter(c, step), horizon);
    }
  }

  // ---------------------------------------------------------------- every step

  /** A step that leaves the members and their direction alone. */
  lemma MembersAlike(c: Cluster, d: Cluster, horizon: Horizon)
    requires Invariant(c, horizon)
    requires d.members == c.members && d.from == c.from && d.to == c.to && d.reversals == c.reversals
    requires d.committing == c.committing && d.checked == c.checked && d.replied == c.replied
    ensures forall i | 0 <= i < |d.members| :: Fits(d, d.members[i], i in d.replied, horizon)
    ensures forall i | 0 <= i < |d.members| :: HeldFits(d, d.members[i], i in d.checked) && d.members[i].Pinned()
    ensures forall key :: d.AllHold(key) == c.AllHold(key)
    ensures d.AllChecked() == c.AllChecked()
  {
    assert d.AllChecked() == c.AllChecked();
    forall i | 0 <= i < |d.members|
      ensures Fits(d, d.members[i], i in d.replied, horizon) && HeldFits(d, d.members[i], i in d.checked)
    {
      FitsAlike(c, d, c.members[i], i in c.checked, i in c.replied, horizon);
    }
  }

  lemma ReplicateKeeps(c: Cluster, i: nat, horizon: Horizon)
    requires Invariant(c, horizon) && i < |c.members|
    ensures Invariant(c.(accepted := c.accepted[i := c.database]), horizon)
  {
    var after := c.(accepted := c.accepted[i := c.database]);
    MembersAlike(c, after, horizon);
    assert forall key :: Carries(c, key) == Carries(after, key);
  }

  /** A confirmed member. When it was the last one, the direction is prepared and no
      one has seen anything of its overlap yet. */
  lemma CheckedKeeps(c: Cluster, i: nat, horizon: Horizon)
    requires Invariant(c, horizon) && i < |c.members| && c.changed && c.accepted[i] == c.to && c.members[i].held.None?
    ensures Invariant(c.(checked := c.checked + {i}), horizon)
  {
    var after := c.(checked := c.checked + {i});
    assert forall key :: Carries(c, key) == Carries(after, key);
    assert c.AllChecked() ==> after.AllChecked();
    forall j | 0 <= j < |after.members| ensures Fits(after, after.members[j], j in after.replied, horizon) {
      assert Fits(c, c.members[j], j in c.replied, horizon);
    }
  }

  lemma RepliedKeeps(c: Cluster, i: nat, horizon: Horizon)
    requires Invariant(c, horizon) && i < |c.members| && Fits(c, c.members[i], true, horizon)
    ensures Invariant(c.(replied := c.replied + {i}), horizon)
  {
    var after := c.(replied := c.replied + {i});
    assert after.AllChecked() == c.AllChecked();
    assert forall key :: Carries(c, key) == Carries(after, key);
    forall j | 0 <= j < |after.members| ensures Fits(after, after.members[j], j in after.replied, horizon) {
      FitsAlike(c, after, c.members[j], j in c.checked, j in after.replied, horizon);
    }
  }

  lemma MemberStepKeeps(c: Cluster, step: Step, limit: nat, horizon: Horizon)
    requires Invariant(c, horizon) && step.AtMember() && Enabled(c, step, limit, horizon)
    ensures Invariant(Apply(c, step, horizon), horizon)
  {
    var m, i := MemberAfter(c, step), step.i;
    var moved := c.(members := c.members[i := m]);
    MemberReplaces(c, step, limit, horizon);
    OneMemberMoves(c, i, m, horizon);
    if step.ReplicateStep? {
      ReplicateKeeps(moved, i, horizon);
    } else if step.MemberStep? {
      CheckedKeeps(moved, i, horizon);
    } else if Replies(c, step) {
      RepliesFit(c, step, horizon);
      assert moved.AllChecked() == c.AllChecked();
      FitsAlike(c, moved, m, true, true, horizon);
      RepliedKeeps(moved, i, horizon);
    }
  }

  lemma DatabaseKeeps(c: Cluster, horizon: Horizon)
    requires Invariant(c, horizon)
    ensures Invariant(Apply(c, DatabaseStep, horizon), horizon)
  {
    var after := Apply(c, DatabaseStep, horizon);
    MembersAlike(c, after, horizon);
    assert forall key :: Carries(c, key) == Carries(after, key);
  }

  lemma SendPrepareKeeps(c: Cluster, horizon: Horizon)
    requires Invariant(c, horizon) && c.AllChecked()
    ensures Invariant(Apply(c, SendPrepareStep, horizon), horizon)
  {
    var after := Apply(c, SendPrepareStep, horizon);
    assert Derived(c.to) in c.Overlap() && Derived(c.from) in c.Overlap();
    MembersAlike(c, after, horizon);
    assert forall key | key in {Derived(c.from), Derived(c.to)} && Carries(c, key) :: Carries(after, key);
  }

  lemma StartCommitKeeps(c: Cluster, limit: nat, horizon: Horizon)
    requires Invariant(c, horizon) && Enabled(c, StartCommitStep, limit, horizon)
    ensures Invariant(Apply(c, StartCommitStep, horizon), horizon)
  {
    var after := Apply(c, StartCommitStep, horizon);
    assert Derived(c.to) in c.Overlap();
    assert after.AllChecked();
    forall j | 0 <= j < |after.members| ensures Fits(after, after.members[j], j in after.replied, horizon) {
      assert Fits(c, c.members[j], j in c.replied, horizon);
      if c.from == c.to {
        assert c.members[j].Holds(Derived(c.to));
      }
    }
    assert forall key :: c.AllHold(key) == after.AllHold(key);
  }

  /** What a member is after its direction was turned around. */
  lemma ReversedMemberFits(c: Cluster, i: nat, limit: nat, horizon: Horizon)
    requires Invariant(c, horizon) && Enabled(c, ReverseStep, limit, horizon) && Within(limit, horizon)
    requires i < |c.members|
    ensures Fits(Apply(c, ReverseStep, horizon), c.members[i], false, horizon)
  {
    var m, after := c.members[i], Apply(c, ReverseStep, horizon);
    assert Fits(c, m, i in c.replied, horizon);
    assert i !in after.checked;
    if c.from != c.to {
      assert after.Overlap() == c.Reverse().Target() && after.Reverse() == c.Prepare();
      assert c.committing ==> HeldFits(c, m, true);
    }
  }

  lemma ReverseKeeps(c: Cluster, limit: nat, horizon: Horizon)
    requires Invariant(c, horizon) && Enabled(c, ReverseStep, limit, horizon) && Within(limit, horizon)
    ensures Invariant(Apply(c, ReverseStep, horizon), horizon)
  {
    var after := Apply(c, ReverseStep, horizon);
    forall i | 0 <= i < |c.members| ensures Fits(after, after.members[i], i in after.replied, horizon) {
      ReversedMemberFits(c, i, limit, horizon);
    }
    assert forall key :: after.AllHold(key) == c.AllHold(key);
    if c.committing {
      CommitCarriesOver(c, horizon);
    }
  }

  /** A direction turned around in its commit keeps its own key for everyone. */
  lemma CommitCarriesOver(c: Cluster, horizon: Horizon)
    requires Invariant(c, horizon) && c.committing && c.reversals < MaxReversals(horizon)
    ensures Carries(Apply(c, ReverseStep, horizon), Derived(c.to))
  {
    forall i | 0 <= i < |c.members| ensures c.members[i].Holds(Derived(c.to)) {
      assert Fits(c, c.members[i], i in c.replied, horizon);
    }
    assert forall q: Request :: Derived(q.newPassword) in q.Target();
    assert Derived(c.to) in c.Overlap();
  }

  lemma NextRotationKeeps(c: Cluster, password: Password, limit: nat, horizon: Horizon)
    requires Invariant(c, horizon) && Enabled(c, NextRotationStep(password), limit, horizon) && Within(limit, horizon)
    ensures Invariant(Apply(c, NextRotationStep(password), horizon), horizon)
  {
    var after := Apply(c, NextRotationStep(password), horizon);
    StartFits(after, horizon);
  }

  /** A clean cluster at the start of a direction, no request under way that names the
      new password. */
  lemma StartFits(c: Cluster, horizon: Horizon)
    requires c.Clean(c.from) && !c.changed && c.checked == {} && !c.committing && c.reversals == 0 && c.replied == {}
    requires horizon.Unbounded? || c.live == {}
    requires c.from == c.to || forall q | q in c.live :: q.newPassword != c.to
    ensures Invariant(c, horizon)
  {
    assert forall q: Request :: Derived(q.newPassword) in q.Target();
    assert Carries(c, Derived(c.from));
    forall i | 0 <= i < |c.members| ensures Fits(c, c.members[i], i in c.replied, horizon) {
    }
  }

  /** Every step of the protocol keeps the invariant. */
  lemma StepKeepsInvariant(c: Cluster, step: Step, limit: nat, horizon: Horizon)
    requires Invariant(c, horizon) && Enabled(c, step, limit, horizon) && Within(limit, horizon)
    ensures Invariant(Apply(c, step, horizon), horizon)
  {
    match step
    case DatabaseStep => DatabaseKeeps(c, horizon);
    case SendPrepareStep => SendPrepareKeeps(c, horizon);
    case StartCommitStep => StartCommitKeeps(c, limit, horizon);
    case ReverseStep => ReverseKeeps(c, limit, horizon);
    case NextRotationStep(password) => NextRotationKeeps(c, password, limit, horizon);
    case _ => MemberStepKeeps(c, step, limit, horizon);
  }

  // ---------------------------------------------------------------- over whole runs

  lemma {:induction false} RunKeepsInvariant(c: Cluster, steps: seq<Step>, limit: nat, horizon: Horizon)
    requires Initial(c) && Possible(c, steps, limit, horizon) && Within(limit, horizon)
    ensures Invariant(Run(c, steps, horizon), horizon)
  {
    if steps == [] {
      StartFits(c, horizon);
    } else {
      RunKeepsInvariant(c, steps[..|steps| - 1], limit, horizon);
      StepKeepsInvariant(Run(c, steps[..|steps| - 1], horizon), steps[|steps| - 1], limit, horizon);
    }
  }

  /** Any number of members, any number of consecutive rotations: as long as a rotation
      is turned around no more often than its requests' lateness allows, one key is
      shared by all at every moment, in mongod and on the volumes. */
  lemma RotationNeverSplitsTheSet(c: Cluster, steps: seq<Step>, limit: nat, horizon: Horizon)
    requires Initial(c) && Possible(c, steps, limit, horizon) && Within(limit, horizon)
    ensures SharesAKey(Run(c, steps, horizon))
    ensures var after := Run(c, steps, horizon);
            forall i, j | 0 <= i < |after.members| && 0 <= j < |after.members| ::
              && KeysOverlap(after.members[i].loaded, after.members[j].loaded)
              && KeysOverlap(after.members[i].PinnedKeys(), after.members[j].PinnedKeys())
              && KeysOverlap(after.members[i].PinnedKeys(), after.members[j].loaded)
  {
    RunKeepsInvariant(c, steps, limit, horizon);
    var after := Run(c, steps, horizon);
    var key := SharedKey(after, horizon);
    forall i, j | 0 <= i < |after.members| && 0 <= j < |after.members|
      ensures KeysOverlap(after.members[i].loaded, after.members[j].loaded)
      ensures KeysOverlap(after.members[i].PinnedKeys(), after.members[j].PinnedKeys())
      ensures KeysOverlap(after.members[i].PinnedKeys(), after.members[j].loaded)
    {
      assert after.members[i].Holds(key) && after.members[j].Holds(key);
    }
  }

  /** Once every member answered KeyPrepare, and for as long as the rotation stays
      in its direction, the new key is everywhere: no KeyCommit can strand anyone. */
  lemma CommitOnlyAfterTheNewKeyIsEverywhere(c: Cluster, steps: seq<Step>, limit: nat, horizon: Horizon)
    requires Initial(c) && Possible(c, steps, limit, horizon) && Within(limit, horizon)
    requires Run(c, steps, horizon).committing
    ensures Run(c, steps, horizon).AllHold(Derived(Run(c, steps, horizon).to))
  {
    RunKeepsInvariant(c, steps, limit, horizon);
    var after := Run(c, steps, horizon);
    forall i | 0 <= i < |after.members| ensures after.members[i].Holds(Derived(after.to)) {
      assert Fits(after, after.members[i], i in after.replied, horizon);
    }
  }

  /** A member that confirmed this direction's password refuses every request of the
      opposite one, however late it comes. */
  lemma ConfirmedMembersRefuseTheOtherDirection(c: Cluster, step: Step, limit: nat, horizon: Horizon)
    requires Invariant(c, horizon) && step.AcceptStep? && Enabled(c, step, limit, horizon)
    requires step.i in c.checked && step.request.newPassword != c.to
    ensures Apply(c, step, horizon) == c
  {
    assert c.members[step.i := c.members[step.i]] == c.members;
  }

  // ---------------------------------------------------------------- reachable clusters

  ghost predicate Reaches(c: Cluster, after: Cluster, limit: nat, horizon: Horizon) {
    exists steps :: Possible(c, steps, limit, horizon) && Run(c, steps, horizon) == after
  }

  lemma ReachStep(c: Cluster, mid: Cluster, step: Step, limit: nat, horizon: Horizon)
    requires Reaches(c, mid, limit, horizon) && Enabled(mid, step, limit, horizon)
    ensures Reaches(c, Apply(mid, step, horizon), limit, horizon)
  {
    var steps :| Possible(c, steps, limit, horizon) && Run(c, steps, horizon) == mid;
    var more := steps + [step];
    assert more[..|more| - 1] == steps;
    assert Possible(c, more, limit, horizon) && Run(c, more, horizon) == Apply(mid, step, horizon);
  }

  lemma ReachTo(c: Cluster, mid: Cluster, step: Step, next: Cluster, limit: nat, horizon: Horizon)
    requires Reaches(c, mid, limit, horizon) && Enabled(mid, step, limit, horizon) && Apply(mid, step, horizon) == next
    ensures Reaches(c, next, limit, horizon)
  {
    ReachStep(c, mid, step, limit, horizon);
  }

  function Moved(c: Cluster, i: nat, m: Member): Cluster
    requires i < |c.members|
  {
    c.(members := c.members[i := m])
  }

  /** One step of one member, from a cluster in which it was left as `before`. */
  lemma ReachMember(c: Cluster, mid: Cluster, before: Member, after: Member, step: Step, limit: nat, horizon: Horizon)
    requires step.OfMember() && step.i < |mid.members| && Reaches(c, Moved(mid, step.i, before), limit, horizon)
    requires Enabled(Moved(mid, step.i, before), step, limit, horizon)
    requires MemberAfter(Moved(mid, step.i, before), step) == after && !Replies(Moved(mid, step.i, before), step)
    ensures Reaches(c, Moved(mid, step.i, after), limit, horizon)
  {
    var state := Moved(mid, step.i, before);
    ReachStep(c, state, step, limit, horizon);
    assert state.members[step.i := after] == mid.members[step.i := after];
  }

  /** A member at rest. */
  function AtRest(password: Password, pinned: Keyfile, loaded: Keyfile): Member {
    Member(Some(AuthPin(password, Some(pinned))), loaded, false, None, None)
  }

  /** A phase of `request` at a member, its target pinned. */
  function Waiting(request: Request, loaded: Keyfile, notified: bool, restarting: Option<Keyfile>): Member {
    Member(Some(AuthPin(request.newPassword, Some(request.Target()))), loaded, notified, restarting, Some(Held(request, Waits)))
  }

  /** A member whose request may reach it and be admitted. */
  predicate Admits(mid: Cluster, i: nat, request: Request) {
    && i < |mid.members| == |mid.accepted| && request in mid.live && mid.accepted[i] == request.newPassword
    && mid.members[i].held.None? && mid.members[i].restarting.None?
  }

  lemma ReachWaiting(c: Cluster, mid: Cluster, i: nat, request: Request, limit: nat, horizon: Horizon)
    requires Reaches(c, mid, limit, horizon) && Admits(mid, i, request) && mid.members[i].loaded != request.Target()
    ensures Reaches(c, Moved(mid, i, Waiting(request, mid.members[i].loaded, true, None)), limit, horizon)
  {
    var m := mid.members[i];
    var admitted, checked := m.(held := Some(Held(request, Admitted))), m.(held := Some(Held(request, Checked)));
    var wrote := Waiting(request, m.loaded, m.notified, None).(held := Some(Held(request, Wrote)));
    assert Moved(mid, i, m) == mid;
    ReachMember(c, mid, m, admitted, AcceptStep(i, request), limit, horizon);
    ReachMember(c, mid, admitted, checked, CheckStep(i), limit, horizon);
    ReachMember(c, mid, checked, wrote, IntendStep(i, true), limit, horizon);
    ReachMember(c, mid, wrote, Waiting(request, m.loaded, true, None), AnnounceStep(i), limit, horizon);
  }

  /** A phase at member i, pinned and read by its supervisor. */
  lemma ReachCaptured(c: Cluster, mid: Cluster, i: nat, request: Request, limit: nat, horizon: Horizon)
    requires Reaches(c, mid, limit, horizon) && Admits(mid, i, request) && mid.members[i].loaded != request.Target()
    ensures var loaded := mid.members[i].loaded;
            Reaches(c, Moved(mid, i, Waiting(request, loaded, false, Some(request.Target()))), limit, horizon)
  {
    var loaded := mid.members[i].loaded;
    ReachWaiting(c, mid, i, request, limit, horizon);
    ReachMember(c, mid, Waiting(request, loaded, true, None), Waiting(request, loaded, false, Some(request.Target())),
                CaptureStep(i), limit, horizon);
  }

  /** A phase whose target gets loaded, though it runs out of time before it answers. */
  lemma ReachLoaded(c: Cluster, mid: Cluster, i: nat, request: Request, limit: nat, horizon: Horizon)
    requires Reaches(c, mid, limit, horizon) && Admits(mid, i, request) && mid.members[i].loaded != request.Target()
    ensures var target := request.Target();
            Reaches(c, Moved(mid, i, AtRest(request.newPassword, target, target)), limit, horizon)
  {
    var target, loaded := request.Target(), mid.members[i].loaded;
    var ended := Waiting(request, target, false, None);
    ReachCaptured(c, mid, i, request, limit, horizon);
    ReachMember(c, mid, Waiting(request, loaded, false, Some(target)), ended, EndRestartStep(i, true), limit, horizon);
    ReachMember(c, mid, ended, AtRest(request.newPassword, target, target), ExpireStep(i), limit, horizon);
  }

  /** A phase whose target is pinned, but whose restart is refused and whose request
      runs out of time. */
  lemma ReachPinnedOnly(c: Cluster, mid: Cluster, i: nat, request: Request, limit: nat, horizon: Horizon)
    requires Reaches(c, mid, limit, horizon) && Admits(mid, i, request) && mid.members[i].loaded != request.Target()
    ensures var target, loaded := request.Target(), mid.members[i].loaded;
            Reaches(c, Moved(mid, i, AtRest(request.newPassword, target, loaded)), limit, horizon)
  {
    var target, loaded := request.Target(), mid.members[i].loaded;
    var refused := Waiting(request, loaded, false, None);
    ReachCaptured(c, mid, i, request, limit, horizon);
    ReachMember(c, mid, Waiting(request, loaded, false, Some(target)), refused, EndRestartStep(i, false), limit, horizon);
    ReachMember(c, mid, refused, AtRest(request.newPassword, target, loaded), ExpireStep(i), limit, horizon);
  }

  lemma AnswerCounts(mid: Cluster, i: nat, m: Member, limit: nat, horizon: Horizon)
    requires i < |mid.members| == |mid.accepted| && mid.members[i] == m && m.held.None? && mid.AllChecked()
    ensures var seeing := Moved(mid, i, m.(held := Some(Held(mid.Prepare(), Sees))));
            && Enabled(seeing, AnswerStep(i, true), limit, horizon)
            && Apply(seeing, AnswerStep(i, true), horizon) == mid.(replied := mid.replied + {i})
  {
    var seeing := Moved(mid, i, m.(held := Some(Held(mid.Prepare(), Sees))));
    assert seeing.AllChecked();
    assert Replies(seeing, AnswerStep(i, true));
    assert seeing.members[i := m] == mid.members;
  }

  lemma ReachSeeing(c: Cluster, mid: Cluster, i: nat, m: Member, request: Request, limit: nat, horizon: Horizon)
    requires Reaches(c, mid, limit, horizon) && Admits(mid, i, request)
    requires m == mid.members[i] && m.loaded == request.Target()
    ensures Reaches(c, Moved(mid, i, m.(held := Some(Held(request, Sees)))), limit, horizon)
  {
    var admitted, waits := m.(held := Some(Held(request, Admitted))), m.(held := Some(Held(request, Waits)));
    assert Moved(mid, i, m) == mid;
    ReachMember(c, mid, m, admitted, AcceptStep(i, request), limit, horizon);
    ReachMember(c, mid, admitted, waits, CheckStep(i), limit, horizon);
    ReachMember(c, mid, waits, m.(held := Some(Held(request, Sees))), SeeStep(i), limit, horizon);
  }

  /** A KeyPrepare at a member that already runs the target: answered OK at once,
      whatever its pin says. */
  lemma ReachAnswered(c: Cluster, mid: Cluster, i: nat, limit: nat, horizon: Horizon)
    requires Reaches(c, mid, limit, horizon) && Admits(mid, i, mid.Prepare())
    requires mid.AllChecked() && mid.members[i].loaded == mid.Overlap()
    ensures Reaches(c, mid.(replied := mid.replied + {i}), limit, horizon)
  {
    var m := mid.members[i];
    ReachSeeing(c, mid, i, m, mid.Prepare(), limit, horizon);
    AnswerCounts(mid, i, m, limit, horizon);
    ReachStep(c, Moved(mid, i, m.(held := Some(Held(mid.Prepare(), Sees)))), AnswerStep(i, true), limit, horizon);
  }

  /** A KeyPrepare that restarts its member into the overlap, and its repetition. */
  lemma ReachPrepared(c: Cluster, mid: Cluster, i: nat, limit: nat, horizon: Horizon)
    requires Reaches(c, mid, limit, horizon) && Admits(mid, i, mid.Prepare())
    requires mid.AllChecked() && mid.members[i].loaded != mid.Overlap()
    ensures Reaches(c, Moved(mid, i, AtRest(mid.to, mid.Overlap(), mid.Overlap())).(replied := mid.replied + {i}), limit, horizon)
  {
    var prepared := Moved(mid, i, AtRest(mid.to, mid.Overlap(), mid.Overlap()));
    ReachLoaded(c, mid, i, mid.Prepare(), limit, horizon);
    assert prepared.AllChecked();
    ReachAnswered(c, prepared, i, limit, horizon);
  }

  /** A crash of member i while no live peer answers: it boots from its pin. */
  lemma ReachRebooted(c: Cluster, mid: Cluster, i: nat, limit: nat, horizon: Horizon)
    requires Reaches(c, mid, limit, horizon) && i < |mid.members| == |mid.accepted| && mid.members[i].Pinned()
    ensures var m := mid.members[i];
            Reaches(c, Moved(mid, i, Member(m.pin, m.PinnedKeys(), false, None, None)), limit, horizon)
  {
    var boot := HaBoot(mid.to, mid.to, None, Some(Pending(mid.to, mid.from)), _ => None, true);
    OverlappingPeersChangeNothing(mid.members[i].pin.value, boot);
    ReachStep(c, mid, RebootStep(i, boot), limit, horizon);
  }

  // ---------------------------------------------------------------- two members

  /** Two members in a direction whose Database phase has not begun. */
  function Turned(m0: Member, m1: Member, from: Password, to: Password, reversals: nat, live: set<Request>): Cluster {
    Cluster([m0, m1], [from, from], from, from, to, false, {}, false, reversals, {}, live)
  }

  /** And once both confirmed the new password. */
  function Opened(m0: Member, m1: Member, from: Password, to: Password, committing: bool, reversals: nat,
                  replied: set<nat>, live: set<Request>): Cluster
  {
    Cluster([m0, m1], [to, to], to, from, to, true, {0, 1}, committing, reversals, replied, live)
  }

  function Prepare(from: Password, to: Password): Request {
    Request(KeyPrepare, to, from)
  }

  function Commit(from: Password, to: Password): Request {
    Request(KeyCommit, to, from)
  }

  /** The stages between: the database changed, `accepted` and `checked` as far as they got. */
  function Opening(m0: Member, m1: Member, accepted: seq<Password>, from: Password, to: Password, checked: set<nat>,
                   reversals: nat, live: set<Request>): Cluster
  {
    Cluster([m0, m1], accepted, to, from, to, true, checked, false, reversals, {}, live)
  }

  lemma OpeningSteps(m0: Member, m1: Member, from: Password, to: Password, reversals: nat, live: set<Request>,
                     limit: nat, horizon: Horizon)
    ensures var s := Turned(m0, m1, from, to, reversals, live);
            Enabled(s, DatabaseStep, limit, horizon)
            && Apply(s, DatabaseStep, horizon) == Opening(m0, m1, [from, from], from, to, {}, reversals, live)
    ensures var s := Opening(m0, m1, [from, from], from, to, {}, reversals, live);
            Enabled(s, ReplicateStep(0), limit, horizon)
            && Apply(s, ReplicateStep(0), horizon) == Opening(m0, m1, [to, from], from, to, {}, reversals, live)
    ensures var s := Opening(m0, m1, [to, from], from, to, {}, reversals, live);
            Enabled(s, ReplicateStep(1), limit, horizon)
            && Apply(s, ReplicateStep(1), horizon) == Opening(m0, m1, [to, to], from, to, {}, reversals, live)
  {
    assert [m0, m1][0 := m0] == [m0, m1] && [m0, m1][1 := m1] == [m0, m1];
    assert [from, from][0 := to] == [to, from] && [to, from][1 := to] == [to, to];
  }

  lemma MemberSteps(m0: Member, m1: Member, from: Password, to: Password, reversals: nat, live: set<Request>,
                    limit: nat, horizon: Horizon)
    requires m0.held.None? && m1.held.None?
    ensures var s := Opening(m0, m1, [to, to], from, to, {}, reversals, live);
            Enabled(s, MemberStep(0), limit, horizon)
            && Apply(s, MemberStep(0), horizon) == Opening(PinPassword(m0, to), m1, [to, to], from, to, {0}, reversals, live)
    ensures var s := Opening(m0, m1, [to, to], from, to, {0}, reversals, live);
            Enabled(s, MemberStep(1), limit, horizon)
            && Apply(s, MemberStep(1), horizon) == Opening(m0, PinPassword(m1, to), [to, to], from, to, {0, 1}, reversals, live)
  {
    assert [m0, m1][0 := PinPassword(m0, to)] == [PinPassword(m0, to), m1];
    assert [m0, m1][1 := PinPassword(m1, to)] == [m0, PinPassword(m1, to)];
    assert {} + {0} == {0} && {0} + {1} == {0, 1};
  }

  lemma PrepareIsSent(m0: Member, m1: Member, from: Password, to: Password, reversals: nat, live: set<Request>,
                      limit: nat, horizon: Horizon)
    ensures var s := Opening(m0, m1, [to, to], from, to, {0, 1}, reversals, live);
            Enabled(s, SendPrepareStep, limit, horizon)
            && Apply(s, SendPrepareStep, horizon) == Opened(m0, m1, from, to, false, reversals, {}, live + {Prepare(from, to)})
  {
    var s := Opening(m0, m1, [to, to], from, to, {0, 1}, reversals, live);
    assert s.AllChecked() && s.Prepare() == Prepare(from, to);
  }

  lemma ReachOpened(c: Cluster, m0: Member, m1: Member, from: Password, to: Password, reversals: nat, live: set<Request>,
                    limit: nat, horizon: Horizon)
    requires Reaches(c, Turned(m0, m1, from, to, reversals, live), limit, horizon)
    requires m0.held.None? && m1.held.None?
    ensures Reaches(c, Opened(PinPassword(m0, to), PinPassword(m1, to), from, to, false, reversals, {}, live + {Prepare(from, to)}),
                    limit, horizon)
  {
    var p0, p1 := PinPassword(m0, to), PinPassword(m1, to);
    OpeningSteps(m0, m1, from, to, reversals, live, limit, horizon);
    MemberSteps(m0, m1, from, to, reversals, live, limit, horizon);
    MemberSteps(p0, m1, from, to, reversals, live, limit, horizon);
    PrepareIsSent(p0, p1, from, to, reversals, live, limit, horizon);
    ReachTo(c, Turned(m0, m1, from, to, reversals, live), DatabaseStep,
            Opening(m0, m1, [from, from], from, to, {}, reversals, live), limit, horizon);
    ReachTo(c, Opening(m0, m1, [from, from], from, to, {}, reversals, live), ReplicateStep(0),
            Opening(m0, m1, [to, from], from, to, {}, reversals, live), limit, horizon);
    ReachTo(c, Opening(m0, m1, [to, from], from, to, {}, reversals, live), ReplicateStep(1),
            Opening(m0, m1, [to, to], from, to, {}, reversals, live), limit, horizon);
    ReachTo(c, Opening(m0, m1, [to, to], from, to, {}, reversals, live), MemberStep(0),
            Opening(p0, m1, [to, to], from, to, {0}, reversals, live), limit, horizon);
    ReachTo(c, Opening(p0, m1, [to, to], from, to, {0}, reversals, live), MemberStep(1),
            Opening(p0, p1, [to, to], from, to, {0, 1}, reversals, live), limit, horizon);
    ReachStep(c, Opening(p0, p1, [to, to], from, to, {0, 1}, reversals, live), SendPrepareStep, limit, horizon);
  }

  lemma ReachTurned(c: Cluster, m0: Member, m1: Member, from: Password, to: Password, committing: bool, reversals: nat,
                    replied: set<nat>, live: set<Request>, limit: nat, horizon: Horizon)
    requires Reaches(c, Opened(m0, m1, from, to, committing, reversals, replied, live), limit, horizon) && reversals < limit
    ensures Reaches(c, Turned(m0, m1, to, from, reversals + 1, if horizon.Direction? then {} else live), limit, horizon)
  {
    ReachStep(c, Opened(m0, m1, from, to, committing, reversals, replied, live), ReverseStep, limit, horizon);
  }

  lemma CommitStarts(m0: Member, m1: Member, from: Password, to: Password, reversals: nat, live: set<Request>,
                     limit: nat, horizon: Horizon)
    ensures var s := Opened(m0, m1, from, to, false, reversals, {0, 1}, live);
            && Enabled(s, StartCommitStep, limit, horizon)
            && Apply(s, StartCommitStep, horizon) == Opened(m0, m1, from, to, true, reversals, {0, 1}, live + {Commit(from, to)})
  {
    var s := Opened(m0, m1, from, to, false, reversals, {0, 1}, live);
    assert s.AllChecked();
    assert s.Commit() == Commit(from, to);
  }

  lemma ReachCommitting(c: Cluster, m0: Member, m1: Member, from: Password, to: Password, reversals: nat, live: set<Request>,
                        limit: nat, horizon: Horizon)
    requires Reaches(c, Opened(m0, m1, from, to, false, reversals, {0, 1}, live), limit, horizon)
    ensures Reaches(c, Opened(m0, m1, from, to, true, reversals, {0, 1}, live + {Commit(from, to)}), limit, horizon)
  {
    CommitStarts(m0, m1, from, to, reversals, live, limit, horizon);
    ReachStep(c, Opened(m0, m1, from, to, false, reversals, {0, 1}, live), StartCommitStep, limit, horizon);
  }

  lemma OpenedAdmits(m0: Member, m1: Member, from: Password, to: Password, committing: bool, reversals: nat,
                     replied: set<nat>, live: set<Request>, request: Request)
    requires request in live && request.newPassword == to
    ensures var s := Opened(m0, m1, from, to, committing, reversals, replied, live);
            && s.AllChecked() && s.Prepare() == Prepare(from, to) && s.Overlap() == Prepare(from, to).Target()
            && (m0.held.None? && m0.restarting.None? ==> Admits(s, 0, request))
            && (m1.held.None? && m1.restarting.None? ==> Admits(s, 1, request))
    ensures forall m :: Moved(Opened(m0, m1, from, to, committing, reversals, replied, live), 0, m)
                        == Opened(m, m1, from, to, committing, reversals, replied, live)
    ensures forall m :: Moved(Opened(m0, m1, from, to, committing, reversals, replied, live), 1, m)
                        == Opened(m0, m, from, to, committing, reversals, replied, live)
  {
    assert forall m :: [m0, m1][0 := m] == [m, m1] && [m0, m1][1 := m] == [m0, m];
  }

  /** Both members restarted into the overlap of a new direction, and the commit begun. */
  lemma ReachBothPrepared(c: Cluster, m0: Member, m1: Member, from: Password, to: Password, reversals: nat, live: set<Request>,
                          limit: nat, horizon: Horizon)
    requires Reaches(c, Turned(m0, m1, from, to, reversals, live), limit, horizon)
    requires m0.held.None? && m1.held.None? && m0.restarting.None? && m1.restarting.None?
    requires m0.loaded != Prepare(from, to).Target() && m1.loaded != Prepare(from, to).Target()
    ensures var m := AtRest(to, Prepare(from, to).Target(), Prepare(from, to).Target());
            Reaches(c, Opened(m, m, from, to, true, reversals, {0, 1}, live + {Prepare(from, to)} + {Commit(from, to)}), limit, horizon)
  {
    var m := AtRest(to, Prepare(from, to).Target(), Prepare(from, to).Target());
    var p0, p1, sent := PinPassword(m0, to), PinPassword(m1, to), live + {Prepare(from, to)};
    ReachOpened(c, m0, m1, from, to, reversals, live, limit, horizon);
    ReachSecondPrepared(c, p0, p1, from, to, reversals, sent, limit, horizon);
    ReachCommitting(c, m, m, from, to, reversals, sent, limit, horizon);
  }

  lemma ReachSecondPrepared(c: Cluster, m0: Member, m1: Member, from: Password, to: Password, reversals: nat, live: set<Request>,
                            limit: nat, horizon: Horizon)
    requires Reaches(c, Opened(m0, m1, from, to, false, reversals, {}, live), limit, horizon) && Prepare(from, to) in live
    requires m0.held.None? && m1.held.None? && m0.restarting.None? && m1.restarting.None?
    requires m0.loaded != Prepare(from, to).Target() && m1.loaded != Prepare(from, to).Target()
    ensures var m := AtRest(to, Prepare(from, to).Target(), Prepare(from, to).Target());
            Reaches(c, Opened(m, m, from, to, false, reversals, {0, 1}, live), limit, horizon)
  {
    var m := AtRest(to, Prepare(from, to).Target(), Prepare(from, to).Target());
    OpenedAdmits(m0, m1, from, to, false, reversals, {}, live, Prepare(from, to));
    ReachPrepared(c, Opened(m0, m1, from, to, false, reversals, {}, live), 0, limit, horizon);
    assert {} + {0} == {0} && {0} + {1} == {0, 1};
    OpenedAdmits(m, m1, from, to, false, reversals, {0}, live, Prepare(from, to));
    ReachPrepared(c, Opened(m, m1, from, to, false, reversals, {0}, live), 1, limit, horizon);
  }

  function TwoMembers(password: Password, next: Password): Cluster {
    var m := AtRest(password, [Derived(password)], [Derived(password)]);
    Turned(m, m, password, next, 0, {})
  }

  lemma TwoMembersReached(password: Password, next: Password, limit: nat, horizon: Horizon)
    ensures Initial(TwoMembers(password, next))
    ensures Reaches(TwoMembers(password, next), TwoMembers(password, next), limit, horizon)
  {
    var c := TwoMembers(password, next);
    assert Possible(c, [], limit, horizon) && Run(c, [], horizon) == c;
  }

  /** Two members that run disjoint keyfiles. */
  predicate Split(c: Cluster) {
    |c.members| == 2 && !KeysOverlap(c.members[0].loaded, c.members[1].loaded)
  }

  lemma SplitSharesNoKey(c: Cluster)
    requires Split(c)
    ensures !SharesAKey(c)
  {
  }

  lemma DisjointSingles(a: Password, b: Password)
    requires a != b
    ensures !KeysOverlap([Derived(a)], [Derived(b)])
    ensures Prepare(a, b).Target() == [Derived(a), Derived(b)] && Commit(a, b).Target() == [Derived(b)]
    ensures Prepare(a, b).Target() != Prepare(b, a).Target()
  {
    assert Prepare(a, b).Target()[0] == Derived(a) && Prepare(b, a).Target()[0] == Derived(b);
  }

  // ---------------------------------------------------------------- a request of an earlier rotation

  /** A whole rotation, and the start of the next. */
  lemma AFinishedRotation(c: Cluster, from: Password, to: Password, next: Password, live: set<Request>,
                          limit: nat, horizon: Horizon)
    requires from != to && horizon.Unbounded?
    requires !horizon.reuse ==> next != to && forall q | q in live :: q.newPassword != next
    requires var m := AtRest(from, [Derived(from)], [Derived(from)]);
             Reaches(c, Turned(m, m, from, to, 0, live), limit, horizon)
    ensures var m := AtRest(to, [Derived(to)], [Derived(to)]);
            Reaches(c, Turned(m, m, to, next, 0, live + {Prepare(from, to)} + {Commit(from, to)}), limit, horizon)
  {
    var start, after := AtRest(from, [Derived(from)], [Derived(from)]), live + {Prepare(from, to)} + {Commit(from, to)};
    var m, done := AtRest(to, Prepare(from, to).Target(), Prepare(from, to).Target()), AtRest(to, [Derived(to)], [Derived(to)]);
    DisjointSingles(from, to);
    ReachBothPrepared(c, start, start, from, to, 0, live, limit, horizon);
    OpenedAdmits(m, m, from, to, true, 0, {0, 1}, after, Commit(from, to));
    ReachLoaded(c, Opened(m, m, from, to, true, 0, {0, 1}, after), 0, Commit(from, to), limit, horizon);
    OpenedAdmits(done, m, from, to, true, 0, {0, 1}, after, Commit(from, to));
    ReachLoaded(c, Opened(done, m, from, to, true, 0, {0, 1}, after), 1, Commit(from, to), limit, horizon);
    NextRotationStarts(done, from, to, next, after, limit, horizon);
    ReachTo(c, Opened(done, done, from, to, true, 0, {0, 1}, after), NextRotationStep(next),
            Turned(done, done, to, next, 0, after), limit, horizon);
  }

  lemma NextRotationStarts(m: Member, from: Password, to: Password, next: Password, live: set<Request>,
                           limit: nat, horizon: Horizon)
    requires m == AtRest(to, [Derived(to)], [Derived(to)]) && horizon.Unbounded?
    requires !horizon.reuse ==> forall q | q in live :: q.newPassword != next
    ensures var s := Opened(m, m, from, to, true, 0, {0, 1}, live);
            && Enabled(s, NextRotationStep(next), limit, horizon)
            && Apply(s, NextRotationStep(next), horizon) == Turned(m, m, to, next, 0, live)
  {
    assert Opened(m, m, from, to, true, 0, {0, 1}, live).Clean(to);
  }

  /** A rotation and the one back, and the first one again: a KeyCommit of its first run
      arrives before anyone prepared. Nothing was reversed; a password came back. */
  lemma AReusedPasswordSplitsTheSet(a: Password, b: Password) returns (after: Cluster)
    requires a != b
    ensures Initial(TwoMembers(a, b)) && Reaches(TwoMembers(a, b), after, 0, Unbounded(true)) && Split(after)
  {
    var c, h := TwoMembers(a, b), Unbounded(true);
    var m, first := AtRest(a, [Derived(a)], [Derived(a)]), {} + {Prepare(a, b)} + {Commit(a, b)};
    var second := first + {Prepare(b, a)} + {Commit(b, a)};
    var p, live := PinPassword(m, b), second + {Prepare(a, b)};
    TwoMembersReached(a, b, 0, h);
    AFinishedRotation(c, a, b, a, {}, 0, h);
    AFinishedRotation(c, b, a, b, first, 0, h);
    DisjointSingles(a, b);
    DisjointSingles(b, a);
    ReachOpened(c, m, m, a, b, 0, second, 0, h);
    OpenedAdmits(p, p, a, b, false, 0, {}, live, Commit(a, b));
    ReachLoaded(c, Opened(p, p, a, b, false, 0, {}, live), 0, Commit(a, b), 0, h);
    after := Opened(AtRest(b, [Derived(b)], [Derived(b)]), p, a, b, false, 0, {}, live);
  }

  /** The second rotation is turned around in its commit. A KeyCommit of the first one,
      late by a whole rotation, finds its password in force again. */
  lemma ARequestOfTheLastRotationSplitsTheSet(v: Password, a: Password, b: Password) returns (after: Cluster)
    requires v != a && a != b
    ensures Initial(TwoMembers(v, a)) && Reaches(TwoMembers(v, a), after, 1, Unbounded(false)) && Split(after)
  {
    var c, h, first := TwoMembers(v, a), Unbounded(false), {} + {Prepare(v, a)} + {Commit(v, a)};
    var single, overlap := AtRest(a, [Derived(a)], [Derived(a)]), AtRest(b, Prepare(a, b).Target(), Prepare(a, b).Target());
    var second, done := first + {Prepare(a, b)} + {Commit(a, b)}, AtRest(b, [Derived(b)], [Derived(b)]);
    TwoMembersReached(v, a, 1, h);
    AFinishedRotation(c, v, a, b, {}, 1, h);
    DisjointSingles(v, a);
    DisjointSingles(a, b);
    ReachBothPrepared(c, single, single, a, b, 0, first, 1, h);
    OpenedAdmits(overlap, overlap, a, b, true, 0, {0, 1}, second, Commit(a, b));
    ReachLoaded(c, Opened(overlap, overlap, a, b, true, 0, {0, 1}, second), 1, Commit(a, b), 1, h);
    ReachTurned(c, overlap, done, a, b, true, 0, {0, 1}, second, 1, h);
    ReachOpened(c, overlap, done, b, a, 1, second, 1, h);
    var p0, p1, live := PinPassword(overlap, a), PinPassword(done, a), second + {Prepare(b, a)};
    OpenedAdmits(p0, p1, b, a, false, 1, {}, live, Commit(v, a));
    ReachLoaded(c, Opened(p0, p1, b, a, false, 1, {}, live), 0, Commit(v, a), 1, h);
    after := Opened(single, p1, b, a, false, 1, {}, live);
  }

  // ---------------------------------------------------------------- a request of the first direction

  /** A KeyCommit of a rotation's first direction, late by two reversals. */
  lemma ARequestOfTheFirstDirectionSplitsTheSet(a: Password, b: Password) returns (after: Cluster)
    requires a != b
    ensures Initial(TwoMembers(a, b)) && Reaches(TwoMembers(a, b), after, 2, Rotation) && Split(after)
  {
    var c, first := TwoMembers(a, b), {} + {Prepare(a, b)} + {Commit(a, b)};
    var forth, back := AtRest(b, Prepare(a, b).Target(), Prepare(a, b).Target()), AtRest(a, Prepare(b, a).Target(), Prepare(b, a).Target());
    var second, done := first + {Prepare(b, a)} + {Commit(b, a)}, AtRest(a, [Derived(a)], [Derived(a)]);
    TwoMembersReached(a, b, 2, Rotation);
    DisjointSingles(a, b);
    DisjointSingles(b, a);
    ReachBothPrepared(c, c.members[0], c.members[1], a, b, 0, {}, 2, Rotation);
    ReachTurned(c, forth, forth, a, b, true, 0, {0, 1}, first, 2, Rotation);
    ReachBothPrepared(c, forth, forth, b, a, 1, first, 2, Rotation);
    OpenedAdmits(back, back, b, a, true, 1, {0, 1}, second, Commit(b, a));
    ReachLoaded(c, Opened(back, back, b, a, true, 1, {0, 1}, second), 1, Commit(b, a), 2, Rotation);
    ReachTurned(c, back, done, b, a, true, 1, {0, 1}, second, 2, Rotation);
    ReachOpened(c, back, done, a, b, 2, second, 2, Rotation);
    var p0, p1, live := PinPassword(back, b), PinPassword(done, b), second + {Prepare(a, b)};
    OpenedAdmits(p0, p1, a, b, false, 2, {}, live, Commit(a, b));
    ReachLoaded(c, Opened(p0, p1, a, b, false, 2, {}, live), 0, Commit(a, b), 2, Rotation);
    after := Opened(AtRest(b, [Derived(b)], [Derived(b)]), p1, a, b, false, 2, {}, live);
  }

  // ---------------------------------------------------------------- an OK that skips the pin

  /** One turn in: member 0 runs the overlap of the first direction, but only pinned
      the overlap of the reverse one. Turned around again. */
  lemma AnUnloadedReversal(a: Password, b: Password)
    requires a != b
    ensures var ab, ba := Prepare(a, b).Target(), Prepare(b, a).Target();
            Reaches(TwoMembers(a, b), Turned(AtRest(a, ba, ab), AtRest(a, [Derived(a)], [Derived(a)]), a, b, 2, {}), 3, Direction)
  {
    var c, ab, ba := TwoMembers(a, b), Prepare(a, b).Target(), Prepare(b, a).Target();
    var one, live, reverse := AtRest(b, [Derived(a)], [Derived(a)]), {} + {Prepare(a, b)}, {} + {Prepare(b, a)};
    TwoMembersReached(a, b, 3, Direction);
    DisjointSingles(a, b);
    ReachOpened(c, c.members[0], c.members[1], a, b, 0, {}, 3, Direction);
    OpenedAdmits(one, one, a, b, false, 0, {}, live, Prepare(a, b));
    ReachLoaded(c, Opened(one, one, a, b, false, 0, {}, live), 0, Prepare(a, b), 3, Direction);
    ReachTurned(c, AtRest(b, ab, ab), one, a, b, false, 0, {}, live, 3, Direction);
    ReachOpened(c, AtRest(b, ab, ab), one, b, a, 1, {}, 3, Direction);
    var back := AtRest(a, [Derived(a)], [Derived(a)]);
    OpenedAdmits(AtRest(a, ab, ab), back, b, a, false, 1, {}, reverse, Prepare(b, a));
    ReachPinnedOnly(c, Opened(AtRest(a, ab, ab), back, b, a, false, 1, {}, reverse), 0, Prepare(b, a), 3, Direction);
    ReachTurned(c, AtRest(a, ba, ab), back, b, a, false, 1, {}, reverse, 3, Direction);
  }

  /** Member 0 runs the overlap and so answers at once, member 1 restarts into it, and
      the commit begins. */
  lemma ReachSkipped(c: Cluster, m0: Member, m1: Member, from: Password, to: Password, reversals: nat, limit: nat, horizon: Horizon)
    requires Reaches(c, Turned(m0, m1, from, to, reversals, {}), limit, horizon)
    requires m0.held.None? && m1.held.None? && m0.restarting.None? && m1.restarting.None?
    requires m0.loaded == Prepare(from, to).Target() != m1.loaded
    ensures var overlap := Prepare(from, to).Target();
            Reaches(c, Opened(PinPassword(m0, to), AtRest(to, overlap, overlap), from, to, true, reversals, {0, 1},
                              {} + {Prepare(from, to)} + {Commit(from, to)}), limit, horizon)
  {
    var p0, p1, live := PinPassword(m0, to), PinPassword(m1, to), {} + {Prepare(from, to)};
    var overlap := Prepare(from, to).Target();
    ReachOpened(c, m0, m1, from, to, reversals, {}, limit, horizon);
    OpenedAdmits(p0, p1, from, to, false, reversals, {}, live, Prepare(from, to));
    ReachAnswered(c, Opened(p0, p1, from, to, false, reversals, {}, live), 0, limit, horizon);
    assert {} + {0} == {0} && {0} + {1} == {0, 1};
    OpenedAdmits(p0, p1, from, to, false, reversals, {0}, live, Prepare(from, to));
    ReachPrepared(c, Opened(p0, p1, from, to, false, reversals, {0}, live), 1, limit, horizon);
    ReachCommitting(c, p0, AtRest(to, overlap, overlap), from, to, reversals, live, limit, horizon);
  }

  /** The immediate OK of member 0 lets the commit start; it then boots from the
      reverse overlap and pins the commit without loading it. Turned around again. */
  lemma ACommitOverAnUnloadedReversal(a: Password, b: Password)
    requires a != b
    ensures var ab, ba := Prepare(a, b).Target(), Prepare(b, a).Target();
            Reaches(TwoMembers(a, b), Turned(AtRest(b, [Derived(b)], ba), AtRest(b, ab, ab), b, a, 3, {}), 3, Direction)
  {
    var c, ab, ba := TwoMembers(a, b), Prepare(a, b).Target(), Prepare(b, a).Target();
    var live := {} + {Prepare(a, b)} + {Commit(a, b)};
    var m1 := AtRest(b, ab, ab);
    DisjointSingles(a, b);
    AnUnloadedReversal(a, b);
    ReachSkipped(c, AtRest(a, ba, ab), AtRest(a, [Derived(a)], [Derived(a)]), a, b, 2, 3, Direction);
    OpenedAdmits(AtRest(b, ba, ab), m1, a, b, true, 2, {0, 1}, live, Commit(a, b));
    ReachRebooted(c, Opened(AtRest(b, ba, ab), m1, a, b, true, 2, {0, 1}, live), 0, 3, Direction);
    OpenedAdmits(AtRest(b, ba, ba), m1, a, b, true, 2, {0, 1}, live, Commit(a, b));
    ReachPinnedOnly(c, Opened(AtRest(b, ba, ba), m1, a, b, true, 2, {0, 1}, live), 0, Commit(a, b), 3, Direction);
    ReachTurned(c, AtRest(b, [Derived(b)], ba), m1, a, b, true, 2, {0, 1}, live, 3, Direction);
  }

  /** The same OK once more; member 1 commits, member 0 crashes, and the two members
      run disjoint keyfiles, though no request was ever late. */
  lemma ThreeReversalsCanSplitTheSet(a: Password, b: Password) returns (after: Cluster)
    requires a != b
    ensures Initial(TwoMembers(a, b)) && Reaches(TwoMembers(a, b), after, 3, Direction) && Split(after)
  {
    var c, ab, ba := TwoMembers(a, b), Prepare(a, b).Target(), Prepare(b, a).Target();
    var live := {} + {Prepare(b, a)} + {Commit(b, a)};
    var m0, m1 := AtRest(a, [Derived(b)], ba), AtRest(a, [Derived(a)], [Derived(a)]);
    TwoMembersReached(a, b, 3, Direction);
    DisjointSingles(a, b);
    DisjointSingles(b, a);
    ACommitOverAnUnloadedReversal(a, b);
    ReachSkipped(c, AtRest(b, [Derived(b)], ba), AtRest(b, ab, ab), b, a, 3, 3, Direction);
    OpenedAdmits(m0, AtRest(a, ba, ba), b, a, true, 3, {0, 1}, live, Commit(b, a));
    ReachLoaded(c, Opened(m0, AtRest(a, ba, ba), b, a, true, 3, {0, 1}, live), 1, Commit(b, a), 3, Direction);
    OpenedAdmits(m0, m1, b, a, true, 3, {0, 1}, live, Commit(b, a));
    ReachRebooted(c, Opened(m0, m1, b, a, true, 3, {0, 1}, live), 0, 3, Direction);
    after := Opened(AtRest(a, [Derived(b)], [Derived(b)]), m1, b, a, true, 3, {0, 1}, live);
  }

  // ---------------------------------------------------------------- exactly that often

  lemma {:induction false} MoreReversalsAllowMore(c: Cluster, steps: seq<Step>, limit: nat, wider: nat, horizon: Horizon)
    requires limit <= wider && Possible(c, steps, limit, horizon)
    ensures Possible(c, steps, wider, horizon)
  {
    if steps != [] {
      MoreReversalsAllowMore(c, steps[..|steps| - 1], limit, wider, horizon);
    }
  }

  ghost predicate Safe(limit: nat, horizon: Horizon) {
    forall c, steps | Initial(c) && Possible(c, steps, limit, horizon) :: SharesAKey(Run(c, steps, horizon))
  }

  /** A run beyond what the lateness allows that ends with disjoint keyfiles. */
  lemma BeyondItTheSetSplits(limit: nat, horizon: Horizon) returns (c: Cluster, after: Cluster)
    requires !Within(limit, horizon)
    ensures Initial(c) && !SharesAKey(after)
    ensures exists fewer: nat :: fewer <= limit && Reaches(c, after, fewer, horizon)
  {
    match horizon {
      case Direction =>
        c := TwoMembers("a", "");
        after := ThreeReversalsCanSplitTheSet("a", "");
        assert Reaches(c, after, 3, horizon);
      case Rotation =>
        c := TwoMembers("a", "");
        after := ARequestOfTheFirstDirectionSplitsTheSet("a", "");
        assert Reaches(c, after, 2, horizon);
      case Unbounded(reuse) =>
        c := TwoMembers("a", "");
        if !reuse {
          after := ARequestOfTheLastRotationSplitsTheSet("a", "", "b");
          assert Reaches(c, after, 1, horizon);
        } else {
          after := AReusedPasswordSplitsTheSet("a", "");
          assert Reaches(c, after, 0, horizon);
        }
    }
    SplitSharesNoKey(after);
  }

  /** The protocol keeps the set together exactly when a rotation is turned around, before
      it is brought to a clean end, at most twice if requests die with their direction, at
      most once if they die with their rotation, and never if they may come at any time;
      then every rotation also needs a password that no request under way names as new. */
  lemma SafeExactlyWithinTheLateness(limit: nat, horizon: Horizon)
    ensures Safe(limit, horizon) <==>
              match horizon
              case Direction => limit <= 2
              case Rotation => limit <= 1
              case Unbounded(reuse) => limit == 0 && !reuse
  {
    if Within(limit, horizon) {
      forall c, steps | Initial(c) && Possible(c, steps, limit, horizon) ensures SharesAKey(Run(c, steps, horizon)) {
        RotationNeverSplitsTheSet(c, steps, limit, horizon);
      }
    } else {
      var c, after := BeyondItTheSetSplits(limit, horizon);
      var fewer: nat :| fewer <= limit && Reaches(c, after, fewer, horizon);
      var steps :| Possible(c, steps, fewer, horizon) && Run(c, steps, horizon) == after;
      MoreReversalsAllowMore(c, steps, fewer, limit, horizon);
    }
  }
}
