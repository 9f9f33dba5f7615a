/** No lease is lost: without a new acquisition every lease becomes free within its recorded duration. */
module NoLostLease {
  import opened Wrappers
  import opened Objects
  import opened LeaseRules
  import opened Stores
  import opened Accounts
  import opened Reconciling
  import opened Starting
  import opened Steps
  import opened Runs
  import opened Lifecycle

  /** This event's reconciliation takes the lease. */
  predicate Acquires(pool: Pool, s: State, e: Event, name: string) {
    (e.Reconciled? || e.Crashed?) && Taken(pool, s.store, e.k, e.env) == Some(name)
  }

  ghost predicate SpecKeptOrFreed(leases: Leases, leases': Leases, name: string) {
    name in leases && name in leases' && (leases'[name].spec == leases[name].spec || leases'[name].spec == FREE)
  }

  lemma AcquireKeepsSpec(pool: Pool, st: Store, k: ClaimKey, e: Env, st': Store, name: string)
    requires e.get.Got? && AcquireEnd(pool, st, k, e, st')
    requires name in st.leases && Taken(pool, st, k, e) != Some(name)
    ensures SpecKeptOrFreed(st.leases, st'.leases, name)
  {
    match Taken(pool, st, k, e)
    case None =>
    case Some(taken) =>
      Leasing.ReleaseEffect(TakenLeases(st, k, e), e.acquire.giveBack.read, e.acquire.giveBack.accepted);
  }

  lemma DeletionKeepsSpec(pool: Pool, st: Store, k: ClaimKey, c: Claim, e: DeletionEnv, st': Store, name: string)
    requires DeletionEnd(pool, st, k, c, e, st') && name in st.leases
    ensures SpecKeptOrFreed(st.leases, st'.leases, name)
  {
    if c.finalizer {
      Leasing.ReleaseEffect(st.leases, e.release.read, e.release.accepted);
    }
  }

  lemma ReconcileKeepsSpec(pool: Pool, st: Store, k: ClaimKey, e: Env, st': Store, name: string)
    requires ReconcileEnd(pool, st, k, e, st')
    requires name in st.leases && Taken(pool, st, k, e) != Some(name)
    ensures SpecKeptOrFreed(st.leases, st'.leases, name)
  {
    if e.get.Got? {
      var c := e.get.claim;
      if c.spec.typ != PROVIDER {
      } else if c.deleting {
        DeletionKeepsSpec(pool, st, k, c, e.deletion, st', name);
      } else if c.finalizer && c.status.phase != Bound {
        AcquireKeepsSpec(pool, st, k, e, st', name);
      }
    }
  }

  lemma ReconciledKeepsSpec(pool: Pool, s: State, k: ClaimKey, env: Env, name: string)
    requires Sound(pool, s) && Possible(pool, s.store, s.now, k, env)
    requires name in s.store.leases && Taken(pool, s.store, k, env) != Some(name)
    ensures SpecKeptOrFreed(s.store.leases, Reconcile(pool, s.store, k, env).0.leases, name)
  {
    ReconcileEnds(pool, s.store, s.now, k, env);
    ReconcileKeepsSpec(pool, s.store, k, env, Reconcile(pool, s.store, k, env).0, name);
  }

  lemma StartKeepsSpec(pool: Pool, st: Store, start: StartEnv, name: string)
    requires name in st.leases
    ensures SpecKeptOrFreed(st.leases, Start(pool, st, start).0.leases, name)
  {
    InitializeGrows(pool, st.leases, 0, start.creates);
  }

  lemma StepKeepsSpec(pool: Pool, s: State, e: Event, name: string)
    requires Sound(pool, s) && Allowed(pool, s, e)
    requires name in s.store.leases && !Acquires(pool, s, e, name)
    ensures SpecKeptOrFreed(s.store.leases, Next(pool, s, e).store.leases, name)
  {
    match e
    case Reconciled(k, env) => ReconciledKeepsSpec(pool, s, k, env, name);
    case Crashed(k, env) => ReconciledKeepsSpec(pool, s, k, env, name);
    case Started(start, survives) => StartKeepsSpec(pool, s.store, start, name);
    case _ =>
  }

  lemma RunStepKeepsSpec(pool: Pool, ss: seq<State>, es: seq<Event>, m: nat, name: string)
    requires ValidConfig(pool.accounts) && IsRun(pool, ss, es) && m < |es|
    requires name in ss[m].store.leases && !Acquires(pool, ss[m], es[m], name)
    ensures SpecKeptOrFreed(ss[m].store.leases, ss[m + 1].store.leases, name)
  {
    RunSound(pool, ss, es, m);
    StepKeepsSpec(pool, ss[m], es[m], name);
  }

  lemma {:induction false} SpecOverRun(pool: Pool, ss: seq<State>, es: seq<Event>, i: nat, j: nat, name: string)
    requires ValidConfig(pool.accounts) && IsRun(pool, ss, es) && i <= j < |ss|
    requires name in ss[i].store.leases
    requires forall m | i <= m < j :: !Acquires(pool, ss[m], es[m], name)
    ensures SpecKeptOrFreed(ss[i].store.leases, ss[j].store.leases, name)
    decreases j
  {
    if i < j {
      SpecOverRun(pool, ss, es, i, j - 1, name);
      RunStepKeepsSpec(pool, ss, es, j - 1, name);
    }
  }

  /**
   * From any reachable state, leaks included: a lease has a holder exactly when it has a
   * window, and once the clock has moved on by its recorded duration it reads as free,
   * unless it was acquired again.
   */
  lemma EveryLeaseComesBack(pool: Pool, ss: seq<State>, es: seq<Event>, i: nat, j: nat, name: string)
    requires ValidConfig(pool.accounts) && IsRun(pool, ss, es) && i <= j < |ss|
    requires name in ss[i].store.leases
    requires forall m | i <= m < j :: !Acquires(pool, ss[m], es[m], name)
    ensures AllOrNone(ss[i].store.leases[name].spec)
    ensures name in ss[j].store.leases
    ensures var spec := ss[i].store.leases[name].spec;
            spec.holder.None? || ss[j].now > ss[i].now + spec.durationSeconds.value * SECOND ==>
              IsFree(ss[j].store.leases[name].spec, ss[j].now)
  {
    RunSound(pool, ss, es, i);
    assert LeaseSound(pool, ss[i].store.leases[name], ss[i].now);
    SpecOverRun(pool, ss, es, i, j, name);
  }
}
