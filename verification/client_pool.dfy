/** The pooled mongod client: one lock, a generation counter, and any number of
    callers that observe, rebuild and swap it concurrently. */
module ClientPools {
  import opened Wrappers
  import opened AuthPins
  import opened RecoveryPolicies

  // ---------------------------------------------------------------- one caller at a time

  datatype Attempt = Answered | Fails(failure: Failure)

  class ClientPool {
    var credential: Password   // what the pooled client authenticates with
    var password: Password     // the stored active password
    var generation: nat
    const policy: RecoveryPolicy

    constructor (password: Password)
      ensures credential == password == this.password && generation == 0
      ensures fresh(policy) && policy.View() == Fresh()
    {
      credential, this.password, generation := password, password, 0;
      policy := new RecoveryPolicy();
    }

    method SwapPassword(password: Password)
      modifies this
      ensures credential == this.password == password && generation == old(generation) + 1
    {
      this.password := password;
      generation := generation + 1;
      credential := password;
    }

    /** A caller that lost the race does nothing. */
    method Rebuild(observed: nat)
      modifies this
      ensures password == old(password)
      ensures if old(generation) == observed then credential == password && generation == observed + 1
              else credential == old(credential) && generation == old(generation)
    {
      if generation != observed { return; }
      credential := password;
      generation := generation + 1;
    }

    /** One command: tried once, and once more only after an authentication failure
        that rebuilt the client. Whatever happens, at most one rebuild, and the pool
        ends with the credential it stores. */
    method Recovering(authenticated: bool, first: Attempt, now: int, second: Attempt, later: int)
      returns (ok: bool, tries: nat)
      requires credential == password
      modifies this, policy
      ensures credential == password == old(password)
      ensures ok <==> first.Answered? || (tries == 2 && second.Answered?)
      ensures tries == 2 <==> first.Fails? && first.failure.Auth? && Rebuilds(old(policy.View()), Auth, now)
      ensures tries == 1 || tries == 2
      ensures generation == old(generation)
                            + (if first.Fails? && Rebuilds(old(policy.View()), first.failure, now) then 1 else 0)
      ensures tries == 1 ==>
                policy.View() == Step(old(policy.View()), if first.Answered? then Worked(authenticated, now)
                                                          else Broke(first.failure, authenticated, now))
      ensures tries == 2 ==>
                policy.View() == Step(Step(old(policy.View()), Broke(Auth, authenticated, now)),
                                      if second.Answered? then Worked(authenticated, later)
                                      else Broke(second.failure, authenticated, later))
    {
      var observed := generation;
      ok, tries := false, 1;
      if first.Answered? {
        policy.OnSuccess(authenticated);
        return true, 1;
      }
      var rebuild := policy.OnFailure(first.failure, authenticated, now);
      if !rebuild { return; }
      Rebuild(observed);
      if !first.failure.Auth? { return; }
      tries := 2;
      if second.Answered? {
        policy.OnSuccess(authenticated);
        ok := true;
      } else {
        var _ := policy.OnFailure(second.failure, authenticated, later);
      }
    }
  }

  // ---------------------------------------------------------------- all callers at once

  /** Where a caller stands. The last three hold the pool's write lock. */
  datatype Caller =
    | Idle
    | Using(observed: nat, credential: Password)
    | WantsRebuild(observed: nat)
    | WantsSwap(password: Password)
    | Rebuilding(observed: nat)
    | Swapping(password: Password)
    | Stored(password: Password)
  {
    predicate HoldsLock() {
      Rebuilding? || Swapping? || Stored?
    }
  }

  datatype Pool = Pool(callers: seq<Caller>, credential: Password, password: Password, generation: nat,
                       holder: Option<nat>, rebuilds: seq<nat>)

  datatype Act =
    | Observe(i: nat)
    | Finish(i: nat)                      // the command answered, or its failure does not implicate the client
    | AskRebuild(i: nat)
    | AskSwap(i: nat, password: Password)
    | LockToRebuild(i: nat)
    | LockToSwap(i: nat)
    | ReplaceRebuilt(i: nat)
    | StorePassword(i: nat)
    | ReplaceSwapped(i: nat)
    | Cancel(i: nat)                      // the future is dropped at an await

  predicate Enabled(p: Pool, act: Act) {
    act.i < |p.callers| &&
    var c := p.callers[act.i];
    match act
    case Observe(_) => c.Idle? && p.holder.None?
    case Finish(_) => c.Using?
    case AskRebuild(_) => c.Using?
    case AskSwap(_, _) => c.Idle?
    case LockToRebuild(_) => c.WantsRebuild? && p.holder.None?
    case LockToSwap(_) => c.WantsSwap? && p.holder.None?
    case ReplaceRebuilt(_) => c.Rebuilding?
    case StorePassword(_) => c.Swapping?
    case ReplaceSwapped(_) => c.Stored?
    case Cancel(_) => !c.Stored?
  }

  function Apply(p: Pool, act: Act): Pool
    requires Enabled(p, act)
  {
    var i, c := act.i, p.callers[act.i];
    match act
    case Observe(_) => p.(callers := p.callers[i := Using(p.generation, p.credential)])
    case Finish(_) => p.(callers := p.callers[i := Idle])
    case AskRebuild(_) => p.(callers := p.callers[i := WantsRebuild(c.observed)])
    case AskSwap(_, password) => p.(callers := p.callers[i := WantsSwap(password)])
    case LockToRebuild(_) =>
      if p.generation != c.observed then p.(callers := p.callers[i := Idle])
      else p.(callers := p.callers[i := Rebuilding(c.observed)], holder := Some(i))
    case LockToSwap(_) => p.(callers := p.callers[i := Swapping(c.password)], holder := Some(i))
    case ReplaceRebuilt(_) =>
      p.(callers := p.callers[i := Idle], credential := p.password, generation := p.generation + 1,
         holder := None, rebuilds := p.rebuilds + [c.observed])
    case StorePassword(_) => p.(callers := p.callers[i := Stored(c.password)], password := c.password)
    case ReplaceSwapped(_) =>
      p.(callers := p.callers[i := Idle], credential := c.password, generation := p.generation + 1, holder := None)
    case Cancel(_) =>
      p.(callers := p.callers[i := Idle], holder := if c.HoldsLock() then None else p.holder)
  }

  predicate Possible(p: Pool, acts: seq<Act>)
    decreases acts, 0
  {
    acts == [] || (Possible(p, acts[..|acts| - 1]) && Enabled(Run(p, acts[..|acts| - 1]), acts[|acts| - 1]))
  }

  function Run(p: Pool, acts: seq<Act>): Pool
    requires Possible(p, acts)
    decreases acts, 1
  {
    if acts == [] then p else Apply(Run(p, acts[..|acts| - 1]), acts[|acts| - 1])
  }

  predicate Initial(p: Pool) {
    && p.credential == p.password && p.holder.None? && p.rebuilds == []
    && forall i | 0 <= i < |p.callers| :: p.callers[i].Idle?
  }

  predicate Increasing(s: seq<nat>) {
    forall i, j | 0 <= i < j < |s| :: s[i] < s[j]
  }

  predicate Invariant(p: Pool) {
    // one holder, and it is the one that stands inside the lock
    && (p.holder.Some? ==> p.holder.value < |p.callers| && p.callers[p.holder.value].HoldsLock())
    && (forall i | 0 <= i < |p.callers| && p.callers[i].HoldsLock() :: p.holder == Some(i))
    // the client carries the stored password, except between storing and replacing
    && (if p.holder.Some? && p.callers[p.holder.value].Stored?
        then p.password == p.callers[p.holder.value].password
        else p.credential == p.password)
    // observed generations lie in the past; a rebuild under way observed the current one
    && (forall i | 0 <= i < |p.callers| && (p.callers[i].Using? || p.callers[i].WantsRebuild?) ::
          p.callers[i].observed <= p.generation)
    && (forall i | 0 <= i < |p.callers| && p.callers[i].Rebuilding? :: p.callers[i].observed == p.generation)
    && Increasing(p.rebuilds) && (forall k | 0 <= k < |p.rebuilds| :: p.rebuilds[k] < p.generation)
  }

  lemma ActKeepsInvariant(p: Pool, act: Act)
    requires Invariant(p) && Enabled(p, act)
    ensures Invariant(Apply(p, act))
    ensures p.generation <= Apply(p, act).generation <= p.generation + 1
    ensures p.rebuilds <= Apply(p, act).rebuilds
  {}

  lemma {:induction false} RunKeepsInvariant(p: Pool, acts: seq<Act>)
    requires Initial(p) && Possible(p, acts)
    ensures Invariant(Run(p, acts))
  {
    if acts != [] {
      RunKeepsInvariant(p, acts[..|acts| - 1]);
      ActKeepsInvariant(Run(p, acts[..|acts| - 1]), acts[|acts| - 1]);
    }
  }

  /** The password the last completed store wrote, or the one at the start. */
  function LastStored(p: Pool, acts: seq<Act>): Password
    requires Possible(p, acts)
  {
    if acts == [] then p.password
    else
      var before, act := Run(p, acts[..|acts| - 1]), acts[|acts| - 1];
      if act.StorePassword? then before.callers[act.i].password else LastStored(p, acts[..|acts| - 1])
  }

  lemma {:induction false} OnlySwapsChangeThePassword(p: Pool, acts: seq<Act>)
    requires Possible(p, acts)
    ensures Run(p, acts).password == LastStored(p, acts)
  {
    if acts != [] {
      OnlySwapsChangeThePassword(p, acts[..|acts| - 1]);
    }
  }

  /** Whenever the pool lock is free, every caller that comes gets a client that
      authenticates with the password last swapped in: no rebuild, however stale,
      interrupted or late, ever undoes a swap. */
  lemma FreePoolCarriesTheLastSwap(p: Pool, acts: seq<Act>)
    requires Initial(p) && Possible(p, acts)
    requires Run(p, acts).holder.None?
    ensures Run(p, acts).credential == Run(p, acts).password == LastStored(p, acts)
  {
    RunKeepsInvariant(p, acts);
    OnlySwapsChangeThePassword(p, acts);
  }

  /** What a caller takes from a free pool. */
  lemma AnObserverGetsTheClient(p: Pool, i: nat)
    requires i < |p.callers| && p.callers[i].Idle? && p.holder.None?
    ensures Enabled(p, Observe(i)) && Apply(p, Observe(i)).callers[i] == Using(p.generation, p.credential)
  {
  }

  /** A rebuild that nobody interrupts: with the generation it observed still the current
      one it replaces the client by one that carries the stored password, and otherwise it
      does nothing; as one caller at a time sees it. */
  lemma ARebuildGoesThrough(p: Pool, i: nat, observed: nat)
    requires i < |p.callers| && p.callers[i].Using? && p.callers[i].observed == observed && p.holder.None?
    ensures Enabled(p, AskRebuild(i)) && Enabled(Apply(p, AskRebuild(i)), LockToRebuild(i))
    ensures var locked := Apply(Apply(p, AskRebuild(i)), LockToRebuild(i));
            if observed != p.generation then locked == p.(callers := p.callers[i := Idle])
            else
              && Enabled(locked, ReplaceRebuilt(i))
              && Apply(locked, ReplaceRebuilt(i))
                 == Pool(p.callers[i := Idle], p.password, p.password, p.generation + 1, None, p.rebuilds + [observed])
  {
    assert p.callers[i := WantsRebuild(observed)][i := Idle] == p.callers[i := Idle];
    assert p.callers[i := WantsRebuild(observed)][i := Rebuilding(observed)][i := Idle] == p.callers[i := Idle];
  }

  /** And so a swap: password, client and generation. */
  lemma ASwapGoesThrough(p: Pool, i: nat, password: Password)
    requires i < |p.callers| && p.callers[i].Idle? && p.holder.None?
    ensures Enabled(p, AskSwap(i, password)) && Enabled(Apply(p, AskSwap(i, password)), LockToSwap(i))
    ensures var locked := Apply(Apply(p, AskSwap(i, password)), LockToSwap(i));
            && Enabled(locked, StorePassword(i)) && Enabled(Apply(locked, StorePassword(i)), ReplaceSwapped(i))
            && Apply(Apply(locked, StorePassword(i)), ReplaceSwapped(i))
               == Pool(p.callers, password, password, p.generation + 1, None, p.rebuilds)
  {
    var asked := p.callers[i := WantsSwap(password)];
    assert asked[i := Swapping(password)][i := Stored(password)][i := Idle] == p.callers;
  }

  /** Generations only grow, and each of them is the cause of at most one rebuild. */
  lemma EachGenerationRebuiltAtMostOnce(p: Pool, acts: seq<Act>, more: seq<Act>)
    requires Initial(p) && Possible(p, acts + more) && Possible(p, acts)
    ensures Run(p, acts).generation <= Run(p, acts + more).generation
    ensures Run(p, acts).rebuilds <= Run(p, acts + more).rebuilds
    ensures Increasing(Run(p, acts + more).rebuilds)
    decreases |more|
  {
    RunKeepsInvariant(p, acts + more);
    if more != [] {
      assert (acts + more)[..|acts + more| - 1] == acts + more[..|more| - 1];
      EachGenerationRebuiltAtMostOnce(p, acts, more[..|more| - 1]);
      RunKeepsInvariant(p, acts + more[..|more| - 1]);
      ActKeepsInvariant(Run(p, acts + more[..|more| - 1]), (acts + more)[|acts + more| - 1]);
    } else {
      assert acts + more == acts;
    }
  }
}
