/** The credential pin of one volume: what a boot resolves from it, who may
    write it, and what a write is allowed to say.

    Keys are an injective image of the secret they are derived from. A keyfile is
    the list of keys mongod accepts: one key, or two while a rotation overlaps. */
module AuthPins {
  import opened Wrappers

  type Password = string
  datatype Key = Derived(secret: Password)
  type Keyfile = seq<Key>

  datatype AuthPin = AuthPin(password: Password, keyfile: Option<Keyfile>)

  /** Two keyfiles a pair of members can still authenticate each other with. */
  predicate KeysOverlap(left: Keyfile, right: Keyfile) {
    exists key | key in right :: key in left
  }

  // ---------------------------------------------------------------- writes

  /** What `write_password_pin` leaves on the volume: the keyfile already there
      survives, the caller's own one is only a fallback. */
  function WithPassword(pin: Option<AuthPin>, password: Password, fallback: Option<Keyfile>): AuthPin {
    AuthPin(password, if pin.Some? && pin.value.keyfile.Some? then pin.value.keyfile else fallback)
  }

  /** One thing a task does to mongod or to the volume. */
  datatype Probe = Works | AccessDenied | NotReady
  datatype Action =
    | Probed(password: Password, answer: Probe)
    | Swapped(password: Password)
    | WrotePassword(password: Password, fallback: Option<Keyfile>)
    | WrotePin(password: Password, keyfile: Keyfile)
  {
    predicate Asserts(p: Password) {
      !Probed? && password == p
    }
  }

  function Perform(pin: Option<AuthPin>, action: Action): Option<AuthPin> {
    match action
    case WrotePassword(password, fallback) => Some(WithPassword(pin, password, fallback))
    case WrotePin(password, keyfile) => Some(AuthPin(password, Some(keyfile)))
    case _ => pin
  }

  function PerformAll(pin: Option<AuthPin>, log: seq<Action>): Option<AuthPin> {
    if log == [] then pin else Perform(PerformAll(pin, log[..|log| - 1]), log[|log| - 1])
  }

  predicate NoCoordinatedWrite(log: seq<Action>) {
    forall i | 0 <= i < |log| :: !log[i].WrotePin?
  }

  /** Whatever else is interleaved with it, the last coordinated keyfile write is
      the keyfile on the volume. */
  lemma {:induction false} KeyfileIntentSurvives(pin: Option<AuthPin>, log: seq<Action>, at: nat)
    requires at < |log| && log[at].WrotePin? && NoCoordinatedWrite(log[at + 1..])
    ensures PerformAll(pin, log).Some? && PerformAll(pin, log).value.keyfile == Some(log[at].keyfile)
  {
    var last := |log| - 1;
    if at < last {
      assert log[last] == log[at + 1..][last - at - 1];
      assert log[..last][at + 1..] == log[at + 1..][..last - at - 1];
      KeyfileIntentSurvives(pin, log[..last], at);
    }
  }

  /** With no coordinated write at all, a keyfile already pinned stays, and a
      volume without one takes the first one a writer offers. */
  lemma {:induction false} PinnedKeyfileIsNeverReplacedByABootKeyfile(pin: Option<AuthPin>, log: seq<Action>)
    requires NoCoordinatedWrite(log)
    ensures pin.Some? && pin.value.keyfile.Some? ==>
              PerformAll(pin, log).Some? && PerformAll(pin, log).value.keyfile == pin.value.keyfile
    ensures forall at | 0 <= at < |log| && log[at].WrotePassword? && log[at].fallback.Some?
                        && (forall i | 0 <= i < at :: log[i].WrotePassword? ==> log[i].fallback.None?)
              :: (pin.None? || pin.value.keyfile.None?) ==>
                   PerformAll(pin, log).Some? && PerformAll(pin, log).value.keyfile == log[at].fallback
  {
    if log != [] {
      var last := |log| - 1;
      PinnedKeyfileIsNeverReplacedByABootKeyfile(pin, log[..last]);
      if pin.None? || pin.value.keyfile.None? {
        forall at | 0 <= at < |log| && log[at].WrotePassword? && log[at].fallback.Some?
                    && (forall i | 0 <= i < at :: log[i].WrotePassword? ==> log[i].fallback.None?)
          ensures PerformAll(pin, log).Some? && PerformAll(pin, log).value.keyfile == log[at].fallback
        {
          if at < last {
            assert log[..last][at] == log[at];
          } else {
            NoOfferLeavesNoKeyfile(pin, log[..last]);
          }
        }
      }
    }
  }

  lemma {:induction false} NoOfferLeavesNoKeyfile(pin: Option<AuthPin>, log: seq<Action>)
    requires pin.None? || pin.value.keyfile.None?
    requires NoCoordinatedWrite(log)
    requires forall i | 0 <= i < |log| :: log[i].WrotePassword? ==> log[i].fallback.None?
    ensures PerformAll(pin, log).None? || PerformAll(pin, log).value.keyfile.None?
  {
    if log != [] {
      NoOfferLeavesNoKeyfile(pin, log[..|log| - 1]);
    }
  }

  // ---------------------------------------------------------------- proof before write

  predicate WorkedBefore(log: seq<Action>, end: nat, password: Password)
    requires end <= |log|
  {
    exists j | 0 <= j < end :: log[j] == Probed(password, Works)
  }

  /** Every password a log swaps to or writes was answered `Works` earlier in it. */
  predicate Proven(log: seq<Action>) {
    forall i | 0 <= i < |log| :: !log[i].Probed? ==> WorkedBefore(log, i, log[i].password)
  }

  lemma ProvenConcat(a: seq<Action>, b: seq<Action>)
    requires Proven(a) && Proven(b)
    ensures Proven(a + b)
  {
    forall i | 0 <= i < |a + b| && !(a + b)[i].Probed?
      ensures WorkedBefore(a + b, i, (a + b)[i].password)
    {
      var p := (a + b)[i].password;
      if i < |a| {
        assert WorkedBefore(a, i, p);
        var j :| 0 <= j < i && a[j] == Probed(p, Works);
        assert (a + b)[j] == Probed(p, Works);
      } else {
        assert WorkedBefore(b, i - |a|, p);
        var j :| 0 <= j < i - |a| && b[j] == Probed(p, Works);
        assert (a + b)[|a| + j] == Probed(p, Works);
      }
    }
  }

  lemma ProvenByItsProbe(password: Password, rest: seq<Action>)
    requires forall i | 0 <= i < |rest| :: rest[i].Asserts(password)
    ensures Proven([Probed(password, Works)] + rest)
    ensures WorkedBefore([Probed(password, Works)] + rest, 1 + |rest|, password)
  {
    var log := [Probed(password, Works)] + rest;
    assert log[0] == Probed(password, Works);
  }

  lemma WorkedInPart(a: seq<Action>, b: seq<Action>, c: seq<Action>, password: Password)
    ensures WorkedBefore(b, |b|, password) ==> WorkedBefore(a + b + c, |a + b + c|, password)
  {
    if WorkedBefore(b, |b|, password) {
      var j :| 0 <= j < |b| && b[j] == Probed(password, Works);
      assert (a + b + c)[|a| + j] == Probed(password, Works);
    }
  }

  /** However the writers interleave, the password on the volume is the one it
      started with or one mongod accepted during the run. */
  lemma {:induction false} PinnedPasswordWasProven(pin: Option<AuthPin>, log: seq<Action>)
    requires Proven(log)
    ensures PerformAll(pin, log) == pin
            || (PerformAll(pin, log).Some?
                && ((pin.Some? && PerformAll(pin, log).value.password == pin.value.password)
                    || WorkedBefore(log, |log|, PerformAll(pin, log).value.password)))
  {
    if log != [] {
      var last := |log| - 1;
      forall i | 0 <= i < last && !log[..last][i].Probed?
        ensures WorkedBefore(log[..last], i, log[..last][i].password)
      {
        assert WorkedBefore(log, i, log[i].password);
        var j :| 0 <= j < i && log[j] == Probed(log[i].password, Works);
        assert log[..last][j] == log[j];
      }
      PinnedPasswordWasProven(pin, log[..last]);
      if log[last].WrotePassword? || log[last].WrotePin? {
        assert WorkedBefore(log, last, log[last].password);
        var j :| 0 <= j < last && log[j] == Probed(log[last].password, Works);
      } else {
        var before := PerformAll(pin, log[..last]);
        if before.Some? && WorkedBefore(log[..last], last, before.value.password) {
          var j :| 0 <= j < last && log[..last][j] == Probed(before.value.password, Works);
          assert log[j] == Probed(before.value.password, Works);
        }
      }
    }
  }

  // ---------------------------------------------------------------- the phases that write

  /** A Member phase: nothing happens before its own mongod accepted the new password. */
  function MemberLog(newPassword: Password, answer: Probe, loaded: Keyfile, writable: bool): seq<Action> {
    [Probed(newPassword, answer)]
    + (if answer.Works? then [Swapped(newPassword)] else [])
    + (if answer.Works? && writable then [WrotePassword(newPassword, Some(loaded))] else [])
  }

  /** What a key phase writes once it was admitted: its target, if it did not find that
      loaded and the set is ready for a restart. */
  function IntentLog(newPassword: Password, target: Keyfile, checked: bool, ready: bool): seq<Action> {
    if checked && ready then [WrotePin(newPassword, target)] else []
  }

  /** A key phase, over the keyfile it finds loaded when it takes its branch. */
  function KeyPhaseLog(newPassword: Password, target: Keyfile, answer: Probe, loaded: Keyfile, ready: bool): seq<Action> {
    [Probed(newPassword, answer)]
    + (if answer.Works? then IntentLog(newPassword, target, loaded != target, ready) else [])
  }

  // ---------------------------------------------------------------- boot

  datatype BootCredentials = BootCredentials(password: Password, keyfile: Option<Keyfile>, envDrifted: bool)

  /** The credentials a boot runs with. `envRsKey` is None on a standalone boot. */
  function ResolveBootCredentials(pin: Option<AuthPin>, envPassword: Password,
                                  envRsKey: Option<Password>, liveSetKeyfile: Option<Keyfile>): BootCredentials
  {
    var envKeyfile := if envRsKey.Some? then Some([Derived(envRsKey.value)]) else None;
    if pin.Some? then
      var keyfile :=
        if envRsKey.None? then None
        else if pin.value.keyfile.Some? then pin.value.keyfile
        else if liveSetKeyfile.Some? then liveSetKeyfile
        else envKeyfile;
      var keyfileDrifted := pin.value.keyfile.Some? && envKeyfile.Some? && pin.value.keyfile != envKeyfile;
      BootCredentials(pin.value.password, keyfile, pin.value.password != envPassword || keyfileDrifted)
    else
      BootCredentials(envPassword, if liveSetKeyfile.Some? then liveSetKeyfile else envKeyfile, false)
  }

  /** What an HA boot runs with: a pinned keyfile before that of the live set, and that
      before the environment's own; the pinned password before the environment's. It is
      called drifted exactly if something pinned differs from the environment. */
  lemma AnHaBootResolves(pin: Option<AuthPin>, envPassword: Password, rsKey: Password, liveSetKeyfile: Option<Keyfile>)
    ensures var creds := ResolveBootCredentials(pin, envPassword, Some(rsKey), liveSetKeyfile);
            && (pin.Some? && pin.value.keyfile.Some? ==> creds.keyfile == pin.value.keyfile)
            && (pin.None? || pin.value.keyfile.None? ==>
                  (liveSetKeyfile.Some? ==> creds.keyfile == liveSetKeyfile)
                  && (liveSetKeyfile.None? ==> creds.keyfile == Some([Derived(rsKey)])))
            && (pin.Some? ==> creds.password == pin.value.password)
            && (pin.None? ==> creds.password == envPassword)
            && (creds.envDrifted <==> pin.Some? && (pin.value.password != envPassword
                                                    || pin.value.keyfile !in {None, Some([Derived(rsKey)])}))
  {
  }

  /** A standalone boot runs without a keyfile, whatever is pinned; without a pin it takes
      none but one it was handed. */
  lemma AStandaloneBootResolves(pin: Option<AuthPin>, envPassword: Password, liveSetKeyfile: Option<Keyfile>)
    ensures var creds := ResolveBootCredentials(pin, envPassword, None, liveSetKeyfile);
            && creds.keyfile == (if pin.Some? then None else liveSetKeyfile)
            && creds.password == (if pin.Some? then pin.value.password else envPassword)
            && (creds.envDrifted <==> pin.Some? && pin.value.password != envPassword)
  {
  }

  /** An HA boot as its environment and its live peers make it. `discover(p)` is
      the keyfile a live peer hands out to password `p`; `inTime` says whether the
      round over the peers ended before its deadline. */
  datatype Pending = Pending(newPassword: Password, currentPassword: Password)
  datatype HaBoot = HaBoot(envPassword: Password, rsKey: Password, liveSetKeyfile: Option<Keyfile>,
                           pending: Option<Pending>, discover: Password -> Option<Keyfile>, inTime: bool)

  function Candidates(pin: AuthPin, boot: HaBoot): seq<Password> {
    (if boot.pending.Some? then [boot.pending.value.newPassword, boot.pending.value.currentPassword] else [])
    + [boot.envPassword, pin.password]
  }

  predicate AsksPeers(pin: AuthPin, boot: HaBoot) {
    pin.keyfile.Some? && (boot.pending.Some? || pin.password != boot.envPassword) && boot.inTime
  }

  /** `at` is the first candidate a live peer hands its keyfile to. */
  predicate FirstAccepted(candidates: seq<Password>, discover: Password -> Option<Keyfile>, at: int) {
    0 <= at < |candidates| && discover(candidates[at]).Some? &&
    forall i | 0 <= i < at :: discover(candidates[i]).None?
  }

  function Accepted(candidates: seq<Password>, discover: Password -> Option<Keyfile>): (r: Option<Keyfile>)
    ensures r.Some? <==> exists at :: FirstAccepted(candidates, discover, at)
    ensures forall at | FirstAccepted(candidates, discover, at) :: r == discover(candidates[at])
  {
    if candidates == [] then None
    else if discover(candidates[0]).Some? then
      assert FirstAccepted(candidates, discover, 0);
      discover(candidates[0])
    else
      var r := Accepted(candidates[1..], discover);
      assert r.Some? ==> exists at :: FirstAccepted(candidates, discover, at) by {
        if r.Some? {
          var at :| FirstAccepted(candidates[1..], discover, at);
          assert FirstAccepted(candidates, discover, at + 1);
        }
      }
      assert forall at | FirstAccepted(candidates, discover, at) :: r == discover(candidates[at]) by {
        forall at | FirstAccepted(candidates, discover, at)
          ensures r == discover(candidates[at])
        {
          assert FirstAccepted(candidates[1..], discover, at - 1);
        }
      }
      r
  }

  /** The pin `reconcile_keyfile_at_boot` leaves behind. */
  function Reconciled(pin: Option<AuthPin>, boot: HaBoot): Option<AuthPin> {
    if pin.None? || !AsksPeers(pin.value, boot) then pin
    else
      var peer := Accepted(Candidates(pin.value, boot), boot.discover);
      if peer.Some? && !KeysOverlap(pin.value.keyfile.value, peer.value)
      then Some(pin.value.(keyfile := peer)) else pin
  }

  /** The boot-time loop over the candidate passwords. */
  method ReconcileKeyfileAtBoot(pin: Option<AuthPin>, boot: HaBoot) returns (after: Option<AuthPin>)
    ensures after == Reconciled(pin, boot)
  {
    after := pin;
    if pin.None? || pin.value.keyfile.None? { return; }
    if boot.pending.None? && pin.value.password == boot.envPassword { return; }
    var candidates := [boot.envPassword, pin.value.password];
    if boot.pending.Some? {
      candidates := [boot.pending.value.currentPassword] + candidates;
      candidates := [boot.pending.value.newPassword] + candidates;
    }
    assert candidates == Candidates(pin.value, boot);
    var found: Option<Keyfile> := None;
    for i := 0 to |candidates|
      invariant found.None?
      invariant forall k | 0 <= k < i :: boot.discover(candidates[k]).None?
    {
      var keyfile := boot.discover(candidates[i]);
      if keyfile.Some? {
        found := keyfile;
        assert FirstAccepted(candidates, boot.discover, i);
        break;
      }
    }
    if boot.inTime && found.Some? && !KeysOverlap(pin.value.keyfile.value, found.value) {
      after := Some(pin.value.(keyfile := found));
    }
  }

  /** Boot reconciliation keeps the password, and changes the keyfile exactly when
      the first live peer that accepts a credential runs a disjoint one; from then
      on the two overlap. */
  lemma ReconciliationOnlyLeavesDisjointKeys(pin: AuthPin, boot: HaBoot)
    ensures Reconciled(Some(pin), boot).Some?
    ensures var after := Reconciled(Some(pin), boot).value;
            && after.password == pin.password
            && (after.keyfile != pin.keyfile <==>
                  AsksPeers(pin, boot) && exists at ::
                    FirstAccepted(Candidates(pin, boot), boot.discover, at)
                    && !KeysOverlap(pin.keyfile.value, boot.discover(Candidates(pin, boot)[at]).value)
                    && boot.discover(Candidates(pin, boot)[at]) != pin.keyfile)
    ensures forall at | AsksPeers(pin, boot) && FirstAccepted(Candidates(pin, boot), boot.discover, at)
                        && boot.discover(Candidates(pin, boot)[at]).value != []
              :: KeysOverlap(Reconciled(Some(pin), boot).value.keyfile.value,
                             boot.discover(Candidates(pin, boot)[at]).value)
  {
    var after := Reconciled(Some(pin), boot).value;
    if AsksPeers(pin, boot) {
      forall at | FirstAccepted(Candidates(pin, boot), boot.discover, at)
                  && boot.discover(Candidates(pin, boot)[at]).value != []
        ensures KeysOverlap(after.keyfile.value, boot.discover(Candidates(pin, boot)[at]).value)
      {
        var peer := boot.discover(Candidates(pin, boot)[at]).value;
        if !KeysOverlap(pin.keyfile.value, peer) {
          assert peer[0] in after.keyfile.value && peer[0] in peer;
        }
      }
    }
  }

  /** Who is heard at boot: with a rotation pending its new password first, then its
      current one, then the environment's, then the pinned one; the first that a live
      peer accepts decides, and only a keyfile with no key in common replaces the pin's. */
  lemma TheFirstAcceptedPasswordDecides(pin: AuthPin, boot: HaBoot)
    ensures Reconciled(None, boot) == None
    ensures pin.keyfile.None? || !boot.inTime || (boot.pending.None? && pin.password == boot.envPassword) ==>
              Reconciled(Some(pin), boot) == Some(pin)
    ensures pin.keyfile.Some? && boot.inTime && (boot.pending.Some? || pin.password != boot.envPassword) ==>
              var ask := boot.discover;
              var rotating := boot.pending.Some?;
              var peer := if rotating && ask(boot.pending.value.newPassword).Some? then ask(boot.pending.value.newPassword)
                          else if rotating && ask(boot.pending.value.currentPassword).Some? then ask(boot.pending.value.currentPassword)
                          else if ask(boot.envPassword).Some? then ask(boot.envPassword)
                          else ask(pin.password);
              Reconciled(Some(pin), boot)
              == Some(if peer.Some? && forall key | key in peer.value :: key !in pin.keyfile.value then pin.(keyfile := peer) else pin)
  {
    var last, two := [pin.password], [boot.envPassword, pin.password];
    AskedFirst(pin.password, [], boot.discover);
    AskedFirst(boot.envPassword, last, boot.discover);
    assert [pin.password] + [] == last && [boot.envPassword] + last == two;
    if boot.pending.Some? {
      var current, next := boot.pending.value.currentPassword, boot.pending.value.newPassword;
      AskedFirst(current, two, boot.discover);
      AskedFirst(next, [current] + two, boot.discover);
      assert Candidates(pin, boot) == [next] + ([current] + two);
    } else {
      assert Candidates(pin, boot) == two;
    }
  }

  lemma AskedFirst(password: Password, rest: seq<Password>, discover: Password -> Option<Keyfile>)
    ensures Accepted([password] + rest, discover)
            == if discover(password).Some? then discover(password) else Accepted(rest, discover)
  {
    assert ([password] + rest)[1..] == rest;
  }

  function BootAll(pin: Option<AuthPin>, boots: seq<HaBoot>): Option<AuthPin> {
    if boots == [] then pin else Reconciled(BootAll(pin, boots[..|boots| - 1]), boots[|boots| - 1])
  }

  function HaCredentials(pin: Option<AuthPin>, boot: HaBoot): BootCredentials {
    ResolveBootCredentials(Reconciled(pin, boot), boot.envPassword, Some(boot.rsKey), boot.liveSetKeyfile)
  }

  /** Once a keyfile is pinned, no sequence of environment edits changes what an HA
      boot runs with, as long as no live peer it proves itself to is disjoint. */
  lemma {:induction false} EnvironmentEditsChangeNothing(pin: AuthPin, boots: seq<HaBoot>, k: nat)
    requires pin.keyfile.Some? && k < |boots|
    requires forall i, p | 0 <= i < |boots| && boots[i].discover(p).Some?
               :: KeysOverlap(pin.keyfile.value, boots[i].discover(p).value)
    ensures BootAll(Some(pin), boots[..k]) == Some(pin)
    ensures HaCredentials(BootAll(Some(pin), boots[..k]), boots[k]).password == pin.password
    ensures HaCredentials(BootAll(Some(pin), boots[..k]), boots[k]).keyfile == pin.keyfile
  {
    if k > 0 {
      EnvironmentEditsChangeNothing(pin, boots, k - 1);
      assert boots[..k][..k - 1] == boots[..k - 1];
      OverlappingPeersChangeNothing(pin, boots[k - 1]);
    }
    OverlappingPeersChangeNothing(pin, boots[k]);
  }

  lemma OverlappingPeersChangeNothing(pin: AuthPin, boot: HaBoot)
    requires pin.keyfile.Some?
    requires forall p | boot.discover(p).Some? :: KeysOverlap(pin.keyfile.value, boot.discover(p).value)
    ensures Reconciled(Some(pin), boot) == Some(pin)
  {
  }

  // ---------------------------------------------------------------- resolver

  /** What one turn of the resolver loop meets. */
  datatype Turn = Turn(initServerUp: bool, pending: Option<Password>, pendingAnswer: Probe,
                       activeAnswer: Probe, seenPin: Option<AuthPin>, envAnswer: Probe, writable: bool)

  /** The resolver's variables. */
  datatype Resolving = Resolving(active: Password, proven: bool, driftReported: bool)

  predicate TakesStaged(s: Resolving, turn: Turn) {
    turn.pending.Some? && turn.pending.value != s.active && turn.pendingAnswer.Works?
  }

  function StagedLog(s: Resolving, turn: Turn): seq<Action> {
    (if turn.pending.Some? && turn.pending.value != s.active then [Probed(turn.pending.value, turn.pendingAnswer)] else [])
    + (if TakesStaged(s, turn) then [Swapped(turn.pending.value)] else [])
  }

  function AfterStaged(s: Resolving, turn: Turn): Resolving {
    if TakesStaged(s, turn) then s.(active := turn.pending.value, proven := false) else s
  }

  function ProvingLog(s: Resolving, turn: Turn, bootKeyfile: Option<Keyfile>): seq<Action> {
    if s.proven then []
    else
      [Probed(s.active, turn.activeAnswer)]
      + (if turn.activeAnswer.Works? && turn.seenPin != Some(AuthPin(s.active, bootKeyfile)) && turn.writable
         then [WrotePassword(s.active, bootKeyfile)] else [])
  }

  function AfterProving(s: Resolving, turn: Turn): Resolving {
    if s.proven then s
    else Resolving(s.active, turn.activeAnswer.Works?, s.driftReported || turn.activeAnswer.AccessDenied?)
  }

  function AdoptingLog(s: Resolving, turn: Turn, envPassword: Password, bootKeyfile: Option<Keyfile>): seq<Action> {
    if envPassword == s.active then []
    else
      [Probed(envPassword, turn.envAnswer)]
      + (if !turn.envAnswer.Works? then []
         else [Swapped(envPassword)] + (if turn.writable then [WrotePassword(envPassword, bootKeyfile)] else []))
  }

  function AfterAdopting(s: Resolving, turn: Turn, envPassword: Password): Resolving {
    if envPassword == s.active then s
    else
      match turn.envAnswer
      case Works => Resolving(envPassword, true, false)
      case AccessDenied => s.(driftReported := true)
      case NotReady => s
  }

  function RoundLog(s: Resolving, turn: Turn, envPassword: Password, bootKeyfile: Option<Keyfile>): seq<Action> {
    if turn.initServerUp then []
    else
      var staged := AfterStaged(s, turn);
      StagedLog(s, turn) + ProvingLog(staged, turn, bootKeyfile)
      + AdoptingLog(AfterProving(staged, turn), turn, envPassword, bootKeyfile)
  }

  function AfterRound(s: Resolving, turn: Turn, envPassword: Password): Resolving {
    if turn.initServerUp then s else AfterAdopting(AfterProving(AfterStaged(s, turn), turn), turn, envPassword)
  }

  predicate Finishes(s: Resolving, turn: Turn, envPassword: Password) {
    !turn.initServerUp && AfterStaged(s, turn).active == envPassword && AfterProving(AfterStaged(s, turn), turn).proven
  }

  /** What the resolver does over its turns, up to the one that ends it. */
  function RunLog(s: Resolving, turns: seq<Turn>, envPassword: Password, bootKeyfile: Option<Keyfile>): seq<Action>
    decreases |turns|
  {
    if turns == [] then []
    else
      RoundLog(s, turns[0], envPassword, bootKeyfile)
      + (if Finishes(s, turns[0], envPassword) then []
         else RunLog(AfterRound(s, turns[0], envPassword), turns[1..], envPassword, bootKeyfile))
  }

  /** A stretch of the resolver's life that takes it from `s` to `t`: whatever it swaps
      to or writes worked earlier in it, it leaves the keyfile intent alone, and what it
      newly counts as proven worked in it. */
  predicate Justifies(s: Resolving, log: seq<Action>, t: Resolving) {
    && Proven(log)
    && NoCoordinatedWrite(log)
    && (t.proven && (!s.proven || t.active != s.active) ==> WorkedBefore(log, |log|, t.active))
  }

  lemma JustifiedInTurn(s: Resolving, first: seq<Action>, between: Resolving, rest: seq<Action>, t: Resolving)
    requires Justifies(s, first, between) && Justifies(between, rest, t)
    ensures Justifies(s, first + rest, t)
  {
    ProvenConcat(first, rest);
    WorkedInPart([], first, rest, t.active);
    WorkedInPart(first, rest, [], t.active);
    assert [] + first + rest == first + rest == first + rest + [];
  }

  lemma StagedIsProven(s: Resolving, turn: Turn)
    ensures Justifies(s, StagedLog(s, turn), AfterStaged(s, turn))
    ensures AfterStaged(s, turn).active != s.active ==>
              WorkedBefore(StagedLog(s, turn), |StagedLog(s, turn)|, AfterStaged(s, turn).active)
  {
    if TakesStaged(s, turn) {
      ProvenByItsProbe(turn.pending.value, [Swapped(turn.pending.value)]);
    }
  }

  lemma ProvingIsProven(s: Resolving, turn: Turn, bootKeyfile: Option<Keyfile>)
    ensures Justifies(s, ProvingLog(s, turn, bootKeyfile), AfterProving(s, turn))
  {
    if !s.proven && turn.activeAnswer.Works? {
      ProvenByItsProbe(s.active, [WrotePassword(s.active, bootKeyfile)]);
      ProvenByItsProbe(s.active, []);
      assert [Probed(s.active, Works)] + [] == [Probed(s.active, Works)];
    }
  }

  lemma AdoptingIsProven(s: Resolving, turn: Turn, envPassword: Password, bootKeyfile: Option<Keyfile>)
    ensures Justifies(s, AdoptingLog(s, turn, envPassword, bootKeyfile), AfterAdopting(s, turn, envPassword))
    ensures AfterAdopting(s, turn, envPassword).active != s.active ==>
              WorkedBefore(AdoptingLog(s, turn, envPassword, bootKeyfile), |AdoptingLog(s, turn, envPassword, bootKeyfile)|, envPassword)
  {
    if envPassword != s.active && turn.envAnswer.Works? {
      ProvenByItsProbe(envPassword, [Swapped(envPassword)] + (if turn.writable then [WrotePassword(envPassword, bootKeyfile)] else []));
    }
  }

  /** Every turn is justified by its own probes. */
  lemma RoundIsProven(s: Resolving, turn: Turn, envPassword: Password, bootKeyfile: Option<Keyfile>)
    ensures Justifies(s, RoundLog(s, turn, envPassword, bootKeyfile), AfterRound(s, turn, envPassword))
  {
    if !turn.initServerUp {
      var staged := AfterStaged(s, turn);
      var proved := AfterProving(staged, turn);
      var a, b, c := StagedLog(s, turn), ProvingLog(staged, turn, bootKeyfile), AdoptingLog(proved, turn, envPassword, bootKeyfile);
      StagedIsProven(s, turn);
      ProvingIsProven(staged, turn, bootKeyfile);
      AdoptingIsProven(proved, turn, envPassword, bootKeyfile);
      JustifiedInTurn(s, a, staged, b, proved);
      JustifiedInTurn(s, a + b, proved, c, AfterRound(s, turn, envPassword));
    }
  }

  function AfterRun(s: Resolving, turns: seq<Turn>, envPassword: Password): (t: Resolving)
    decreases |turns|
  {
    if turns == [] then s
    else if Finishes(s, turns[0], envPassword) then AfterRound(s, turns[0], envPassword)
    else AfterRun(AfterRound(s, turns[0], envPassword), turns[1..], envPassword)
  }

  lemma Regroup(a: seq<Action>, b: seq<Action>, c: seq<Action>)
    ensures a + (b + c) == a + b + c
  {
  }

  /** One turn of the loop, after what was logged before it. */
  lemma RunUnrolls(done: seq<Action>, s: Resolving, turns: seq<Turn>, envPassword: Password, bootKeyfile: Option<Keyfile>)
    requires turns != []
    ensures var log, s1 := RoundLog(s, turns[0], envPassword, bootKeyfile), AfterRound(s, turns[0], envPassword);
            if Finishes(s, turns[0], envPassword) then
              && done + RunLog(s, turns, envPassword, bootKeyfile) == done + log
              && AfterRun(s, turns, envPassword) == s1
            else
              && done + RunLog(s, turns, envPassword, bootKeyfile)
                 == done + log + RunLog(s1, turns[1..], envPassword, bootKeyfile)
              && AfterRun(s, turns, envPassword) == AfterRun(s1, turns[1..], envPassword)
  {
    var log := RoundLog(s, turns[0], envPassword, bootKeyfile);
    if Finishes(s, turns[0], envPassword) {
      assert log + [] == log;
    } else {
      Regroup(done, log, RunLog(AfterRound(s, turns[0], envPassword), turns[1..], envPassword, bootKeyfile));
    }
  }

  /** The same over the whole life of the resolver. */
  lemma {:induction false} RunIsProven(s: Resolving, turns: seq<Turn>, envPassword: Password, bootKeyfile: Option<Keyfile>)
    ensures Justifies(s, RunLog(s, turns, envPassword, bootKeyfile), AfterRun(s, turns, envPassword))
    decreases |turns|
  {
    if turns != [] {
      var first, s1 := RoundLog(s, turns[0], envPassword, bootKeyfile), AfterRound(s, turns[0], envPassword);
      RoundIsProven(s, turns[0], envPassword, bootKeyfile);
      if Finishes(s, turns[0], envPassword) {
        assert first + [] == first;
      } else {
        RunIsProven(s1, turns[1..], envPassword, bootKeyfile);
        JustifiedInTurn(s, first, s1, RunLog(s1, turns[1..], envPassword, bootKeyfile), AfterRun(s1, turns[1..], envPassword));
      }
    }
  }

  // ---------------------------------------------------------------- what the resolver leaves behind

  /** The password the pooled client authenticates with after a log. */
  function CredentialAfter(credential: Password, log: seq<Action>): Password {
    if log == [] then credential
    else if log[|log| - 1].Swapped? then log[|log| - 1].password
    else CredentialAfter(credential, log[..|log| - 1])
  }

  lemma {:induction false} InTwo(pin: Option<AuthPin>, credential: Password, a: seq<Action>, b: seq<Action>)
    ensures PerformAll(pin, a + b) == PerformAll(PerformAll(pin, a), b)
    ensures CredentialAfter(credential, a + b) == CredentialAfter(CredentialAfter(credential, a), b)
  {
    if b == [] {
      assert a + b == a;
    } else {
      assert (a + b)[..|a + b| - 1] == a + b[..|b| - 1];
      InTwo(pin, credential, a, b[..|b| - 1]);
    }
  }

  /** A password that counts as proven is the one on the volume. */
  predicate PinFollows(pin: Option<AuthPin>, s: Resolving) {
    s.proven ==> pin.Some? && pin.value.password == s.active
  }

  /** The stretch from `s` to `t` takes the pool and the volume along. */
  predicate TakesAlong(pin: Option<AuthPin>, s: Resolving, log: seq<Action>, t: Resolving) {
    && CredentialAfter(s.active, log) == t.active
    && (PinFollows(pin, s) ==> PinFollows(PerformAll(pin, log), t))
  }

  lemma TakenAlongInTurn(pin: Option<AuthPin>, s: Resolving, a: seq<Action>, between: Resolving, b: seq<Action>, t: Resolving)
    requires TakesAlong(pin, s, a, between) && TakesAlong(PerformAll(pin, a), between, b, t)
    ensures TakesAlong(pin, s, a + b, t)
  {
    InTwo(pin, s.active, a, b);
  }

  lemma OneAction(pin: Option<AuthPin>, credential: Password, a: Action)
    ensures PerformAll(pin, [a]) == Perform(pin, a)
    ensures CredentialAfter(credential, [a]) == if a.Swapped? then a.password else credential
  {
    var one := [a];
    assert one[..|one| - 1] == [];
  }

  lemma TwoActions(pin: Option<AuthPin>, credential: Password, a: Action, b: Action)
    ensures PerformAll(pin, [a, b]) == Perform(Perform(pin, a), b) && PerformAll(pin, [a]) == Perform(pin, a)
    ensures CredentialAfter(credential, [a, b]) == (if b.Swapped? then b.password else if a.Swapped? then a.password else credential)
    ensures CredentialAfter(credential, [a]) == if a.Swapped? then a.password else credential
  {
    OneAction(pin, credential, a);
    OneAction(Perform(pin, a), CredentialAfter(credential, [a]), b);
    InTwo(pin, credential, [a], [b]);
    assert [a] + [b] == [a, b];
  }

  lemma StagingTakesAlong(pin: Option<AuthPin>, s: Resolving, turn: Turn)
    ensures TakesAlong(pin, s, StagedLog(s, turn), AfterStaged(s, turn)) && PerformAll(pin, StagedLog(s, turn)) == pin
  {
    if turn.pending.Some? {
      TwoActions(pin, s.active, Probed(turn.pending.value, turn.pendingAnswer), Swapped(turn.pending.value));
    }
  }

  lemma ProvingTakesAlong(pin: Option<AuthPin>, s: Resolving, turn: Turn, bootKeyfile: Option<Keyfile>)
    requires turn.writable && turn.seenPin == pin
    ensures TakesAlong(pin, s, ProvingLog(s, turn, bootKeyfile), AfterProving(s, turn))
  {
    TwoActions(pin, s.active, Probed(s.active, turn.activeAnswer), WrotePassword(s.active, bootKeyfile));
  }

  lemma AdoptingTakesAlong(pin: Option<AuthPin>, s: Resolving, turn: Turn, envPassword: Password, bootKeyfile: Option<Keyfile>)
    requires turn.writable
    ensures TakesAlong(pin, s, AdoptingLog(s, turn, envPassword, bootKeyfile), AfterAdopting(s, turn, envPassword))
  {
    var probe, swap, write := Probed(envPassword, turn.envAnswer), Swapped(envPassword), WrotePassword(envPassword, bootKeyfile);
    TwoActions(pin, s.active, probe, probe);
    if envPassword != s.active && turn.envAnswer.Works? {
      TwoActions(PerformAll(pin, [probe]), CredentialAfter(s.active, [probe]), swap, write);
      InTwo(pin, s.active, [probe], [swap, write]);
      assert AdoptingLog(s, turn, envPassword, bootKeyfile) == [probe] + [swap, write];
    }
  }

  /** One turn on a volume it can write, with no other writer. */
  lemma RoundTakesAlong(pin: Option<AuthPin>, s: Resolving, turn: Turn, envPassword: Password, bootKeyfile: Option<Keyfile>)
    requires turn.writable && turn.seenPin == pin
    ensures TakesAlong(pin, s, RoundLog(s, turn, envPassword, bootKeyfile), AfterRound(s, turn, envPassword))
  {
    if !turn.initServerUp {
      var staged := AfterStaged(s, turn);
      var proved := AfterProving(staged, turn);
      var a, b, c := StagedLog(s, turn), ProvingLog(staged, turn, bootKeyfile), AdoptingLog(proved, turn, envPassword, bootKeyfile);
      StagingTakesAlong(pin, s, turn);
      ProvingTakesAlong(pin, staged, turn, bootKeyfile);
      TakenAlongInTurn(pin, s, a, staged, b, proved);
      AdoptingTakesAlong(PerformAll(pin, a + b), proved, turn, envPassword, bootKeyfile);
      TakenAlongInTurn(pin, s, a + b, proved, c, AfterRound(s, turn, envPassword));
    }
  }

  /** Every turn can write, and finds on the volume what the turns before it left. */
  predicate SeesItsVolume(pin: Option<AuthPin>, s: Resolving, turns: seq<Turn>, envPassword: Password, bootKeyfile: Option<Keyfile>)
    decreases |turns|
  {
    turns == [] ||
    (turns[0].writable && turns[0].seenPin == pin
     && (Finishes(s, turns[0], envPassword)
         || SeesItsVolume(PerformAll(pin, RoundLog(s, turns[0], envPassword, bootKeyfile)),
                          AfterRound(s, turns[0], envPassword), turns[1..], envPassword, bootKeyfile)))
  }

  /** Over its whole life: the pool authenticates with the resolver's active password, and
      once that counts as proven it is the password on the volume. */
  lemma {:induction false} WhatIsProvenIsPinned(pin: Option<AuthPin>, s: Resolving, turns: seq<Turn>, envPassword: Password,
                                                bootKeyfile: Option<Keyfile>)
    requires SeesItsVolume(pin, s, turns, envPassword, bootKeyfile) && PinFollows(pin, s)
    ensures var log, t := RunLog(s, turns, envPassword, bootKeyfile), AfterRun(s, turns, envPassword);
            && CredentialAfter(s.active, log) == t.active
            && (t.proven ==> PerformAll(pin, log).Some? && PerformAll(pin, log).value.password == t.active)
    decreases |turns|
  {
    if turns != [] {
      var log, t := RoundLog(s, turns[0], envPassword, bootKeyfile), AfterRound(s, turns[0], envPassword);
      RoundTakesAlong(pin, s, turns[0], envPassword, bootKeyfile);
      if Finishes(s, turns[0], envPassword) {
        assert log + [] == log;
      } else {
        WhatIsProvenIsPinned(PerformAll(pin, log), t, turns[1..], envPassword, bootKeyfile);
        TakenAlongInTurn(pin, s, log, t, RunLog(t, turns[1..], envPassword, bootKeyfile), AfterRun(t, turns[1..], envPassword));
      }
    }
  }

  // ---------------------------------------------------------------- the resolver

  /** The background task that proves the boot credentials and keeps the pin
      truthful. */
  class Resolver {
    const envPassword: Password
    const bootKeyfile: Option<Keyfile>
    var active: Password
    var proven: bool
    var driftReported: bool

    constructor (envPassword: Password, boot: BootCredentials)
      ensures this.envPassword == envPassword && bootKeyfile == boot.keyfile
      ensures active == boot.password && !proven && !driftReported
    {
      this.envPassword := envPassword;
      bootKeyfile := boot.keyfile;
      active := boot.password;
      proven := false;
      driftReported := false;
    }

    function State(): Resolving
      reads this
    {
      Resolving(active, proven, driftReported)
    }

    /** A staged rotation password that already works replaces the active one. */
    method TakeStaged(turn: Turn) returns (log: seq<Action>)
      modifies this
      ensures log == StagedLog(old(State()), turn) && State() == AfterStaged(old(State()), turn)
      ensures var accepted := turn.pending.Some? && turn.pending.value != old(active) && turn.pendingAnswer.Works?;
              && active == (if accepted then turn.pending.value else old(active))
              && proven == (old(proven) && !accepted)
      ensures active != old(active) ==> WorkedBefore(log, |log|, active)
    {
      StagedIsProven(State(), turn);
      log := [];
      if turn.pending.Some? && turn.pending.value != active {
        log := [Probed(turn.pending.value, turn.pendingAnswer)];
        if turn.pendingAnswer.Works? {
          log := log + [Swapped(turn.pending.value)];
          active := turn.pending.value;
          proven := false;
        }
      }
    }

    /** Ask mongod about the active password until it has said yes once. */
    method ProveActive(turn: Turn) returns (log: seq<Action>)
      modifies this
      ensures log == ProvingLog(old(State()), turn, bootKeyfile) && State() == AfterProving(old(State()), turn)
      ensures active == old(active) && proven == (old(proven) || turn.activeAnswer.Works?)
      ensures driftReported == (old(driftReported) || (!old(proven) && turn.activeAnswer.AccessDenied?))
      ensures proven && !old(proven) ==> WorkedBefore(log, |log|, active)
    {
      ProvingIsProven(State(), turn, bootKeyfile);
      log := [];
      if proven { return; }
      log := [Probed(active, turn.activeAnswer)];
      match turn.activeAnswer {
        case Works =>
          proven := true;
          if turn.seenPin != Some(AuthPin(active, bootKeyfile)) && turn.writable {
            log := log + [WrotePassword(active, bootKeyfile)];
          }
        case AccessDenied => driftReported := true;
        case NotReady =>
      }
    }

    /** Adopt the environment's password once it authenticates. */
    method AdoptEnvironment(turn: Turn) returns (log: seq<Action>)
      modifies this
      ensures log == AdoptingLog(old(State()), turn, envPassword, bootKeyfile)
      ensures State() == AfterAdopting(old(State()), turn, envPassword)
      ensures var adopts := envPassword != old(active) && turn.envAnswer.Works?;
              && active == (if adopts then envPassword else old(active))
              && proven == (old(proven) || adopts)
      ensures driftReported == (if envPassword == old(active) || turn.envAnswer.NotReady? then old(driftReported)
                                else turn.envAnswer.AccessDenied?)
      ensures active != old(active) ==> WorkedBefore(log, |log|, active)
    {
      AdoptingIsProven(State(), turn, envPassword, bootKeyfile);
      log := [];
      if envPassword == active { return; }
      log := [Probed(envPassword, turn.envAnswer)];
      match turn.envAnswer {
        case Works =>
          log := log + ([Swapped(envPassword)] + (if turn.writable then [WrotePassword(envPassword, bootKeyfile)] else []));
          active := envPassword;
          proven := true;
          driftReported := false;
        case AccessDenied => driftReported := true;
        case NotReady =>
      }
    }

    /** One turn: what it did, and whether the loop ends. */
    method Round(turn: Turn) returns (log: seq<Action>, finished: bool)
      modifies this
      ensures log == RoundLog(old(State()), turn, envPassword, bootKeyfile)
      ensures State() == AfterRound(old(State()), turn, envPassword)
      ensures finished == Finishes(old(State()), turn, envPassword)
      ensures Proven(log) && NoCoordinatedWrite(log)
      ensures turn.initServerUp ==> log == [] && !finished && unchanged(this)
      ensures !turn.initServerUp ==>
                var accepted := turn.pending.Some? && turn.pending.value != old(active) && turn.pendingAnswer.Works?;
                var staged := if accepted then turn.pending.value else old(active);
                var judged := (old(proven) && !accepted) || turn.activeAnswer.Works?;
                var adopts := envPassword != staged && turn.envAnswer.Works?;
                && active == (if adopts then envPassword else staged)
                && proven == (judged || adopts)
                && finished == (envPassword == staged && judged)
    {
      RoundIsProven(State(), turn, envPassword, bootKeyfile);
      log, finished := [], false;
      if turn.initServerUp { return; }
      var staging := TakeStaged(turn);
      var proving := ProveActive(turn);
      finished := envPassword == active && proven;
      var adopting := AdoptEnvironment(turn);
      log := staging + proving + adopting;
    }

    /** The loop. It ends only with the environment's own password in force and
        accepted by mongod, and it never touches the keyfile intent. */
    method Run(turns: seq<Turn>) returns (log: seq<Action>, finished: bool)
      requires !proven
      modifies this
      ensures log == RunLog(old(State()), turns, envPassword, bootKeyfile)
      ensures State() == AfterRun(old(State()), turns, envPassword)
      ensures Proven(log) && NoCoordinatedWrite(log)
      ensures proven ==> WorkedBefore(log, |log|, active)
      ensures finished ==> active == envPassword && WorkedBefore(log, |log|, envPassword)
    {
      RunIsProven(State(), turns, envPassword, bootKeyfile);
      ghost var start := State();
      log, finished := [], false;
      var i := 0;
      while i < |turns| && !finished
        invariant 0 <= i <= |turns|
        invariant finished ==> proven && active == envPassword
        invariant RunLog(start, turns, envPassword, bootKeyfile)
                  == if finished then log else log + RunLog(State(), turns[i..], envPassword, bootKeyfile)
        invariant AfterRun(start, turns, envPassword)
                  == if finished then State() else AfterRun(State(), turns[i..], envPassword)
      {
        var more;
        ghost var was := State();
        assert turns[i..][0] == turns[i] && turns[i..][1..] == turns[i + 1..];
        more, finished := Round(turns[i]);
        RunUnrolls(log, was, turns[i..], envPassword, bootKeyfile);
        log := log + more;
        i := i + 1;
      }
      assert turns[|turns|..] == [];
    }
  }

  // ---------------------------------------------------------------- all writers at once

  /** Everyone who writes the pin: the resolver, and the Member and key phases. */
  datatype Writer =
    | Resolves(state: Resolving, turns: seq<Turn>, envPassword: Password, bootKeyfile: Option<Keyfile>)
    | Confirms(newPassword: Password, answer: Probe, loaded: Keyfile, writable: bool)
    | Prepares(newPassword: Password, target: Keyfile, answer: Probe, loaded: Keyfile, ready: bool)

  function LogOf(writer: Writer): seq<Action> {
    match writer
    case Resolves(state, turns, envPassword, bootKeyfile) => RunLog(state, turns, envPassword, bootKeyfile)
    case Confirms(newPassword, answer, loaded, writable) => MemberLog(newPassword, answer, loaded, writable)
    case Prepares(newPassword, target, answer, loaded, ready) => KeyPhaseLog(newPassword, target, answer, loaded, ready)
  }

  lemma EveryWriterIsProven(writer: Writer)
    ensures Proven(LogOf(writer))
  {
    match writer
    case Resolves(state, turns, envPassword, bootKeyfile) => RunIsProven(state, turns, envPassword, bootKeyfile);
    case Confirms(newPassword, answer, loaded, writable) =>
      if answer.Works? {
        ProvenByItsProbe(newPassword, [Swapped(newPassword)]
                                      + (if writable then [WrotePassword(newPassword, Some(loaded))] else []));
        assert LogOf(writer) == [Probed(newPassword, Works)]
          + ([Swapped(newPassword)] + (if writable then [WrotePassword(newPassword, Some(loaded))] else []));
      }
    case Prepares(newPassword, target, answer, loaded, ready) =>
      if answer.Works? {
        ProvenByItsProbe(newPassword, IntentLog(newPassword, target, loaded != target, ready));
      }
  }

  /** `log` is made of the parts, each in its own order, taken in turns in any way. */
  ghost predicate Interleaves(log: seq<Action>, parts: seq<seq<Action>>)
    decreases |log|
  {
    if log == [] then forall k | 0 <= k < |parts| :: parts[k] == []
    else exists k | 0 <= k < |parts| :: EndsWith(log, parts[k]) && Interleaves(Front(log), parts[k := Front(parts[k])])
  }

  function Front(log: seq<Action>): seq<Action> {
    if log == [] then [] else log[..|log| - 1]
  }

  predicate EndsWith(log: seq<Action>, part: seq<Action>)
    requires log != []
  {
    part != [] && part[|part| - 1] == log[|log| - 1]
  }

  lemma {:induction false} PartsAreInTheLog(log: seq<Action>, parts: seq<seq<Action>>, k: nat, action: Action)
    requires Interleaves(log, parts) && k < |parts| && action in parts[k]
    ensures action in log
    decreases |log|
  {
    var j :| 0 <= j < |parts| && EndsWith(log, parts[j]) && Interleaves(Front(log), parts[j := Front(parts[j])]);
    if action != log[|log| - 1] {
      assert parts[j] == Front(parts[j]) + [log[|log| - 1]];
      PartsAreInTheLog(Front(log), parts[j := Front(parts[j])], k, action);
    }
  }

  lemma ProvenFront(log: seq<Action>)
    requires Proven(log)
    ensures Proven(Front(log))
  {
    forall i | 0 <= i < |Front(log)| && !Front(log)[i].Probed? ensures WorkedBefore(Front(log), i, Front(log)[i].password) {
      assert WorkedBefore(log, i, log[i].password);
      var j :| 0 <= j < i && log[j] == Probed(log[i].password, Works);
      assert Front(log)[j] == log[j];
    }
  }

  /** A log stays proven when its next action was answered for anywhere before it. */
  lemma ProvenOneMore(log: seq<Action>)
    requires log != [] && Proven(Front(log))
    requires var last := log[|log| - 1]; !last.Probed? ==> Probed(last.password, Works) in Front(log)
    ensures Proven(log)
  {
    forall i | 0 <= i < |log| && !log[i].Probed? ensures WorkedBefore(log, i, log[i].password) {
      if i < |log| - 1 {
        assert WorkedBefore(Front(log), i, Front(log)[i].password);
        var j :| 0 <= j < i && Front(log)[j] == Probed(log[i].password, Works);
        assert log[j] == Front(log)[j];
      } else {
        var j :| 0 <= j < i && Front(log)[j] == Probed(log[i].password, Works);
        assert log[j] == Front(log)[j];
      }
    }
  }

  lemma LastWasAnsweredFor(log: seq<Action>)
    requires log != [] && Proven(log) && !log[|log| - 1].Probed?
    ensures Probed(log[|log| - 1].password, Works) in Front(log)
  {
    assert WorkedBefore(log, |log| - 1, log[|log| - 1].password);
    var j :| 0 <= j < |log| - 1 && log[j] == Probed(log[|log| - 1].password, Works);
    assert Front(log)[j] == log[j];
  }

  /** Proof before write survives every interleaving. */
  lemma {:induction false} InterleavingIsProven(log: seq<Action>, parts: seq<seq<Action>>)
    requires Interleaves(log, parts) && forall k | 0 <= k < |parts| :: Proven(parts[k])
    ensures Proven(log)
    decreases |log|
  {
    if log != [] {
      var last := log[|log| - 1];
      var k :| 0 <= k < |parts| && EndsWith(log, parts[k]) && Interleaves(Front(log), parts[k := Front(parts[k])]);
      ProvenFront(parts[k]);
      InterleavingIsProven(Front(log), parts[k := Front(parts[k])]);
      if !last.Probed? {
        LastWasAnsweredFor(parts[k]);
        PartsAreInTheLog(Front(log), parts[k := Front(parts[k])], k, Probed(last.password, Works));
      }
      ProvenOneMore(log);
    }
  }

  lemma ProvenPrefix(log: seq<Action>, prefix: seq<Action>)
    requires Proven(log) && prefix <= log
    ensures Proven(prefix)
  {
    forall i | 0 <= i < |prefix| && !prefix[i].Probed? ensures WorkedBefore(prefix, i, prefix[i].password) {
      assert WorkedBefore(log, i, log[i].password);
      var j :| 0 <= j < i && log[j] == Probed(log[i].password, Works);
      assert prefix[j] == log[j];
    }
  }

  /** Any number of writers, each cut short anywhere, in any interleaving: the password on
      the volume is the one it started with, or one that some mongod probe accepted
      before it was written. */
  lemma EveryPinnedPasswordWorked(pin: Option<AuthPin>, writers: seq<Writer>, parts: seq<seq<Action>>, log: seq<Action>)
    requires |parts| == |writers| && forall k | 0 <= k < |parts| :: parts[k] <= LogOf(writers[k])
    requires Interleaves(log, parts)
    ensures PerformAll(pin, log) == pin
            || (PerformAll(pin, log).Some?
                && ((pin.Some? && PerformAll(pin, log).value.password == pin.value.password)
                    || WorkedBefore(log, |log|, PerformAll(pin, log).value.password)))
    ensures forall i | 0 <= i < |log| && (log[i].WrotePassword? || log[i].WrotePin?) :: WorkedBefore(log, i, log[i].password)
  {
    forall k | 0 <= k < |parts| ensures Proven(parts[k]) {
      EveryWriterIsProven(writers[k]);
      ProvenPrefix(LogOf(writers[k]), parts[k]);
    }
    InterleavingIsProven(log, parts);
    PinnedPasswordWasProven(pin, log);
  }
}
