/**
 * Exclusive binding. While the operator is up, every claim that records a lease is its
 * current holder, hence no two claims record the same lease, on every run in which claim
 * reads are current, no recorded lease is overtaken, no deletion frees a lease and then
 * loses its last claim write, and every start that brings the operator up completes its
 * cleanup. Crashes and failures of any other call are unrestricted.
 */
module Exclusivity {
  import opened Wrappers
  import opened Objects
  import opened Names
  import opened LeaseRules
  import opened Stores
  import opened Accounts
  import opened Leasing
  import opened Snowflake
  import opened Reconciling
  import opened Starting
  import opened Steps
  import opened Runs
  import opened Lifecycle

  predicate Records(st: Store, k: ClaimKey, name: string) {
    name != "" && k in st.claims && st.claims[k].status.leaseName == name
  }

  predicate Holds(st: Store, k: ClaimKey, name: string) {
    name in st.leases && st.leases[name].spec.holder == Some(HolderIdentity(k))
  }

  ghost predicate Exclusive(st: Store) {
    forall k, name | Records(st, k, name) :: Holds(st, k, name)
  }

  /** No two claims record the same lease. */
  lemma ExclusiveMeansUnshared(st: Store, j: ClaimKey, k: ClaimKey, name: string)
    requires ClaimsSound(st.leases.Keys, st.claims) && Exclusive(st)
    requires Records(st, j, name) && Records(st, k, name)
    ensures j == k
  {
    assert Holds(st, j, name) && Holds(st, k, name);
    HolderIdentityInjective(j, k);
  }

  /** The claim the reconciler works on is the one in the store. */
  predicate CurrentRead(st: Store, k: ClaimKey, e: Env) {
    e.get.Got? ==> k in st.claims && e.get.claim == st.claims[k]
  }

  /** The reconciliation takes a lease that some claim still records. */
  ghost predicate Overtakes(pool: Pool, st: Store, k: ClaimKey, e: Env) {
    var taken := Taken(pool, st, k, e);
    taken.Some? && exists j :: Records(st, j, taken.value)
  }

  /** Every write of the startup cleanup to a lease or a claim succeeds. */
  predicate CleanStart(start: StartEnv) {
    start.cleanup && start.leasesListed && start.leasesRefused == {} && start.claimsListed && start.claimsRefused == {}
  }

  /** What an acquisition that took the lease `name` leaves behind. */
  ghost predicate AcquireFacts(st: Store, k: ClaimKey, name: string, holder: LeaseSpec, st': Store) {
    && name in st.leases && OtherLeasesSame(st.leases, st'.leases, name)
    && OnlyClaim(st.claims, st'.claims, k) && k in st'.claims
    && if st'.claims[k].status.leaseName == name
       then st'.leases[name].spec == holder && st'.claims[k].status.phase == Bound
       else st'.claims[k].status.leaseName == "" && st'.claims[k].status.phase != Bound
            && (st'.leases[name].spec == holder || st'.leases[name].spec == FREE)
  }

  lemma ProvisionLeaves(pool: Pool, st: Store, k: ClaimKey, c: Claim, name: string, a: Account, clock: Clock,
                        e: AcquireEnv, st': Store)
    requires k in st.claims && c == st.claims[k] && c.status.leaseName == "" && c.status.phase != Bound
    requires name in st.leases && name != ""
    requires e.giveBack.read.Some? ==> e.giveBack.read.value.name == name
    requires ProvisionEnd(pool, st, k, c, name, a, clock, e, st')
    ensures AcquireFacts(st, k, name, st.leases[name].spec, st')
  {
    hide AcquireResource, AccountFromUrl, AccountIdentifier, HolderIdentity, AppSecret;
    Leasing.ReleaseEffect(st.leases, e.giveBack.read, e.giveBack.accepted);
  }

  lemma AcquireLeaves(pool: Pool, st: Store, k: ClaimKey, e: Env, st': Store)
    requires ClaimsSound(st.leases.Keys, st.claims) && e.get.Got? && CurrentRead(st, k, e)
    requires var c := e.get.claim; c.spec.typ == PROVIDER && !c.deleting && c.finalizer && c.status.phase != Bound
    requires AcquireEnd(pool, st, k, e, st') && Taken(pool, st, k, e).Some?
    ensures AcquireFacts(st, k, Taken(pool, st, k, e).value,
        Held(HolderIdentity(k), e.clock.stamp, DurationOf(e.get.claim)), st')
  {
    var name := Taken(pool, st, k, e).value;
    var st1, a := st.(leases := TakenLeases(st, k, e)), AccountFor(pool, st.leases, name).value;
    ProvisionLeaves(pool, st1, k, e.get.claim, name, a, e.clock, e.acquire, st');
  }

  lemma AcquireExclusive(pool: Pool, st: Store, k: ClaimKey, e: Env, st': Store)
    requires ClaimsSound(st.leases.Keys, st.claims) && Exclusive(st) && e.get.Got? && CurrentRead(st, k, e)
    requires var c := e.get.claim; c.spec.typ == PROVIDER && !c.deleting && c.finalizer && c.status.phase != Bound
    requires AcquireEnd(pool, st, k, e, st')
    ensures Exclusive(st') <==> !Overtakes(pool, st, k, e)
  {
    var c := e.get.claim;
    assert c.status.leaseName == "";
    match Taken(pool, st, k, e)
    case None =>
      assert forall j, name | Records(st', j, name) :: Records(st, j, name);
      assert Exclusive(st');
    case Some(name) =>
      AcquireLeaves(pool, st, k, e, st');
      TakenExclusive(st, k, name, Held(HolderIdentity(k), e.clock.stamp, DurationOf(c)), st');
  }

  lemma TakenExclusive(st: Store, k: ClaimKey, name: string, holder: LeaseSpec, st': Store)
    requires ClaimsSound(st.leases.Keys, st.claims) && Exclusive(st)
    requires name in st.leases && name != "" && holder.holder == Some(HolderIdentity(k))
    requires k in st.claims && st.claims[k].status.leaseName == ""
    requires AcquireFacts(st, k, name, holder, st')
    ensures Exclusive(st') <==> !exists j :: Records(st, j, name)
  {
    if exists j :: Records(st, j, name) {
      var j :| Records(st, j, name);
      assert Records(st', j, name);
      HolderIdentityInjective(j, k);
      assert !Holds(st', j, name);
    } else {
      forall j, n | Records(st', j, n) ensures Holds(st', j, n) {
        if j != k {
          assert Records(st, j, n);
          assert Holds(st, j, n);
        }
      }
    }
  }

  /** The deletion frees the recorded lease. */
  predicate Frees(st: Store, c: Claim, e: DeletionEnv) {
    c.status.leaseName != "" && Lands(st.leases, e.release)
  }

  /**
   * Every end of a deletion of the current claim. It is removed if nothing is left to free and the
   * last write succeeds.
   */
  lemma DeletionLeaves(pool: Pool, st: Store, k: ClaimKey, c: Claim, e: DeletionEnv, st': Store)
    requires ClaimsSound(st.leases.Keys, st.claims) && k in st.claims && c == st.claims[k]
    requires c.deleting && c.spec.typ == PROVIDER
    requires e.release.read.Some? ==> e.release.read.value.name == c.status.leaseName
    requires DeletionEnd(pool, st, k, c, e, st')
    ensures OnlyClaim(st.claims, st'.claims, k)
    ensures k !in st'.claims <==> e.finalizerOk && (c.status.leaseName == "" || Frees(st, c, e))
    ensures k in st'.claims ==> st'.claims[k].status == if e.statusOk then c.status.(phase := Releasing) else c.status
    ensures if Frees(st, c, e)
            then c.status.leaseName in st.leases && OtherLeasesSame(st.leases, st'.leases, c.status.leaseName)
                 && st'.leases[c.status.leaseName].spec == FREE
            else st'.leases == st.leases
  {
    hide ReleaseRecorded, MarkClaims;
    assert c.finalizer;
    MarkSound(st.leases.Keys, st.claims, k, c, e.statusOk);
    Leasing.ReleaseEffect(st.leases, e.release.read, e.release.accepted);
  }

  lemma DeletionExclusiveIff(pool: Pool, st: Store, k: ClaimKey, c: Claim, e: DeletionEnv, st': Store)
    requires ClaimsSound(st.leases.Keys, st.claims) && Exclusive(st) && k in st.claims && c == st.claims[k]
    requires c.deleting && c.spec.typ == PROVIDER
    requires e.release.read.Some? ==> e.release.read.value.name == c.status.leaseName
    requires DeletionEnd(pool, st, k, c, e, st')
    ensures Exclusive(st') <==> !(Frees(st, c, e) && !e.finalizerOk)
  {
    DeletionLeaves(pool, st, k, c, e, st');
    var name := c.status.leaseName;
    if Frees(st, c, e) && !e.finalizerOk {
      assert Records(st', k, name) && !Holds(st', k, name);
    } else {
      forall j, n | Records(st', j, n) ensures Holds(st', j, n) {
        assert Records(st, j, n);
        assert Holds(st, j, n);
        if Frees(st, c, e) && n == name {
          ExclusiveMeansUnshared(st, j, k, n);
        }
      }
    }
  }

  /** The deletion frees the lease but its last write fails, so the claim goes on recording a free lease. */
  predicate StrandsClaim(st: Store, e: Env) {
    && e.get.Got? && e.get.claim.spec.typ == PROVIDER && e.get.claim.deleting
    && Frees(st, e.get.claim, e.deletion) && !e.deletion.finalizerOk
  }

  /**
   * From an exclusive state, a reconciliation with a current claim read keeps exclusivity if
   * and only if it neither overtakes nor strands the claim it deletes. Nothing else that can
   * fail matters.
   */
  lemma ReconcileExclusiveIff(pool: Pool, st: Store, now: int, k: ClaimKey, e: Env)
    requires LeasesSound(pool, st.leases, now) && ClaimsSound(st.leases.Keys, st.claims) && Exclusive(st)
    requires Possible(pool, st, now, k, e) && CurrentRead(st, k, e)
    ensures Exclusive(Reconcile(pool, st, k, e).0) <==> !Overtakes(pool, st, k, e) && !StrandsClaim(st, e)
  {
    ReconcileEnds(pool, st, now, k, e);
    EndExclusive(pool, st, now, k, e, Reconcile(pool, st, k, e).0);
  }

  /** Without deletion and acquisition no record appears and no lease changes. */
  lemma PlainExclusive(pool: Pool, st: Store, k: ClaimKey, e: Env, st': Store)
    requires Exclusive(st) && CurrentRead(st, k, e) && e.get.Got? && ReconcileEnd(pool, st, k, e, st')
    requires var c := e.get.claim; c.spec.typ != PROVIDER || (!c.deleting && (!c.finalizer || c.status.phase == Bound))
    ensures Exclusive(st')
  {
    hide AcquireEnd, DeletionEnd;
    assert forall j, name | Records(st', j, name) :: Records(st, j, name);
  }

  lemma EndExclusive(pool: Pool, st: Store, now: int, k: ClaimKey, e: Env, st': Store)
    requires ClaimsSound(st.leases.Keys, st.claims) && Exclusive(st)
    requires Possible(pool, st, now, k, e) && CurrentRead(st, k, e)
    requires ReconcileEnd(pool, st, k, e, st')
    ensures Exclusive(st') <==> !Overtakes(pool, st, k, e) && !StrandsClaim(st, e)
  {
    hide AcquireEnd, DeletionEnd, Exclusive, ClaimsSound;
    if e.get.Got? {
      var c := e.get.claim;
      if c.spec.typ != PROVIDER || (!c.deleting && (!c.finalizer || c.status.phase == Bound)) {
        PlainExclusive(pool, st, k, e, st');
      } else if c.deleting {
        DeletionExclusiveIff(pool, st, k, c, e.deletion, st');
      } else {
        AcquireExclusive(pool, st, k, e, st');
      }
    }
  }

  /** After a clean start nothing is recorded. */
  lemma CleanStartExclusive(pool: Pool, s: State, start: StartEnv)
    requires Sound(pool, s) && CleanStart(start)
    ensures var (st', ok) := Start(pool, s.store, start);
            ok ==> Exclusive(st') && forall k, name :: !Records(st', k, name)
  {
    var (st', ok) := Start(pool, s.store, start);
    if ok {
      forall k, name ensures !Records(st', k, name) {
        if k in s.store.claims {
          assert ClaimSound(s.store.leases.Keys, s.store.claims[k]);
        }
      }
    }
  }

  ghost predicate Disciplined(pool: Pool, s: State, e: Event) {
    match e
    case Reconciled(k, env) => 
      CurrentRead(s.store, k, env) && !Overtakes(pool, s.store, k, env) && !StrandsClaim(s.store, env)
    case Started(start, survives) => survives ==> CleanStart(start)
    case _ => true
  }

  lemma StepExclusive(pool: Pool, s: State, e: Event)
    requires ValidConfig(pool.accounts) && Sound(pool, s) && Allowed(pool, s, e) && Disciplined(pool, s, e)
    requires s.up ==> Exclusive(s.store)
    ensures var s' := Next(pool, s, e); s'.up ==> Exclusive(s'.store)
  {
    var s' := Next(pool, s, e);
    match e
    case Reconciled(k, env) => ReconcileExclusiveIff(pool, s.store, s.now, k, env);
    case Started(start, survives) =>
      if survives {
        CleanStartExclusive(pool, s, start);
      }
    case Crashed(k, env) =>
    case _ => assert forall j, name | Records(s'.store, j, name) :: Records(s.store, j, name);
  }

  ghost predicate IsDisciplinedRun(pool: Pool, ss: seq<State>, es: seq<Event>) {
    IsRun(pool, ss, es) && forall i | 0 <= i < |es| :: Disciplined(pool, ss[i], es[i])
  }

  /** Exclusive binding over every disciplined run. */
  lemma {:induction false} RunExclusive(pool: Pool, ss: seq<State>, es: seq<Event>, i: nat)
    requires ValidConfig(pool.accounts) && IsDisciplinedRun(pool, ss, es) && i < |ss|
    ensures ss[i].up ==> Exclusive(ss[i].store)
  {
    if i > 0 {
      RunExclusive(pool, ss, es, i - 1);
      RunSound(pool, ss, es, i - 1);
      StepExclusive(pool, ss[i - 1], es[i - 1]);
    }
  }
}
