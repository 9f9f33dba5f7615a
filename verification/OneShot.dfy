/** A claim is bound once: until the operator restarts, what a bound claim records never changes. */
module OneShot {
  import opened Objects
  import opened Stores
  import opened Accounts
  import opened Reconciling
  import opened Starting
  import opened Steps
  import opened Runs
  import opened Lifecycle

  /** The same record, possibly on its way out. */
  predicate SameRecord(old_: ClaimStatus, new_: ClaimStatus) {
    new_ == old_ || new_ == old_.(phase := Releasing)
  }

  lemma DeletionKeepsRecord(pool: Pool, st: Store, k: ClaimKey, c: Claim, e: DeletionEnv, st': Store)
    requires ClaimsSound(st.leases.Keys, st.claims) && PossibleClaimRead(st.claims, k, c)
    requires c.deleting && c.spec.typ == PROVIDER && DeletionEnd(pool, st, k, c, e, st')
    requires k in st.claims && k in st'.claims
    ensures SameRecord(st.claims[k].status, st'.claims[k].status)
  {
    hide ReleaseRecorded, MarkClaims;
    if c.finalizer {
      MarkSound(st.leases.Keys, st.claims, k, c, e.statusOk);
    }
  }

  lemma AcquireKeepsRecord(pool: Pool, st: Store, k: ClaimKey, e: Env, st': Store)
    requires ClaimsSound(st.leases.Keys, st.claims) && e.get.Got? && PossibleClaimRead(st.claims, k, e.get.claim)
    requires var c := e.get.claim; c.spec.typ == PROVIDER && !c.deleting && c.finalizer && c.status.phase != Bound
    requires AcquireEnd(pool, st, k, e, st')
    requires k in st.claims && st.claims[k].status.leaseName != ""
    ensures st'.claims == st.claims
  {
    var c := e.get.claim;
    assert !IsCurrent(st.claims, k, c);
  }

  lemma ReconcileKeepsRecord(pool: Pool, st: Store, now: int, k: ClaimKey, e: Env, st': Store)
    requires ClaimsSound(st.leases.Keys, st.claims) && Possible(pool, st, now, k, e)
        && ReconcileEnd(pool, st, k, e, st')
    requires k in st.claims && st.claims[k].status.leaseName != "" && k in st'.claims
    ensures SameRecord(st.claims[k].status, st'.claims[k].status)
  {
    if e.get.Got? {
      var c := e.get.claim;
      if c.spec.typ != PROVIDER || !c.finalizer {
      } else if c.deleting {
        DeletionKeepsRecord(pool, st, k, c, e.deletion, st');
      } else if c.status.phase != Bound {
        AcquireKeepsRecord(pool, st, k, e, st');
      }
    }
  }

  /** One step keeps incarnations apart, and outside a start it keeps what a claim records. */
  lemma StepKeepsRecord(pool: Pool, s: State, e: Event, k: ClaimKey)
    requires ValidConfig(pool.accounts) && Sound(pool, s) && Allowed(pool, s, e)
    ensures var s' := Next(pool, s, e);
            && s.nextUid <= s'.nextUid
            && (k in s'.store.claims && s'.store.claims[k].uid < s.nextUid ==>
                  && k in s.store.claims && s.store.claims[k].uid == s'.store.claims[k].uid
                  && (!e.Started? && s.store.claims[k].status.leaseName != "" ==>
                        SameRecord(s.store.claims[k].status, s'.store.claims[k].status)))
  {
    hide Start, LeasesSound, ValidConfig;
    match e
    case Reconciled(j, env) => ReconciledKeepsRecord(pool, s, j, env, k);
    case Crashed(j, env) => ReconciledKeepsRecord(pool, s, j, env, k);
    case Started(start, survives) => StartSound(pool, s.store, start, s.now);
    case _ =>
  }

  lemma ReconciledKeepsRecord(pool: Pool, s: State, j: ClaimKey, env: Env, k: ClaimKey)
    requires Sound(pool, s) && Possible(pool, s.store, s.now, j, env)
    ensures var claims' := Reconcile(pool, s.store, j, env).0.claims;
            k in claims' ==>
              && k in s.store.claims && s.store.claims[k].uid == claims'[k].uid
              && (s.store.claims[k].status.leaseName != "" ==> SameRecord(s.store.claims[k].status, claims'[k].status))
  {
    ReconcileEnds(pool, s.store, s.now, j, env);
    KeptBy(pool, s, j, env, Reconcile(pool, s.store, j, env).0, k);
  }

  lemma KeptBy(pool: Pool, s: State, j: ClaimKey, env: Env, st': Store, k: ClaimKey)
    requires Sound(pool, s) && Possible(pool, s.store, s.now, j, env) && ReconcileEnd(pool, s.store, j, env, st')
    ensures k in st'.claims ==>
              && k in s.store.claims && s.store.claims[k].uid == st'.claims[k].uid
              && (s.store.claims[k].status.leaseName != ""
                  ==> SameRecord(s.store.claims[k].status, st'.claims[k].status))
  {
    ReconcileSound(pool, s.store, s.now, j, env, st');
    if j == k && k in st'.claims && s.store.claims[k].status.leaseName != "" {
      ReconcileKeepsRecord(pool, s.store, s.now, k, env, st');
    }
  }

  /** What `StepKeepsRecord` says of every claim, for a step that is not a start. */
  ghost predicate KeepsRecords(s: State, s': State) {
    && s.nextUid <= s'.nextUid
    && forall k | k in s'.store.claims && s'.store.claims[k].uid < s.nextUid ::
         && k in s.store.claims && s.store.claims[k].uid == s'.store.claims[k].uid
         && (s.store.claims[k].status.leaseName != ""
             ==> SameRecord(s.store.claims[k].status, s'.store.claims[k].status))
  }

  lemma RunStepKeepsRecords(pool: Pool, ss: seq<State>, es: seq<Event>, m: nat)
    requires ValidConfig(pool.accounts) && IsRun(pool, ss, es) && m < |es| && !es[m].Started?
    ensures KeepsRecords(ss[m], ss[m + 1])
  {
    RunSound(pool, ss, es, m);
    forall k {
      StepKeepsRecord(pool, ss[m], es[m], k);
    }
  }

  lemma {:induction false} KeptAlong(ss: seq<State>, i: nat, j: nat, k: ClaimKey)
    requires i <= j < |ss|
    requires forall m | i <= m < j :: KeepsRecords(ss[m], ss[m + 1])
    requires k in ss[i].store.claims && ss[i].store.claims[k].status.leaseName != ""
    requires ss[i].store.claims[k].uid < ss[i].nextUid
    requires k in ss[j].store.claims && ss[j].store.claims[k].uid == ss[i].store.claims[k].uid
    ensures SameRecord(ss[i].store.claims[k].status, ss[j].store.claims[k].status)
    decreases j
  {
    if i < j {
      UidsGrow(ss, i, j - 1);
      assert KeepsRecords(ss[j - 1], ss[j - 1 + 1]);
      KeptAlong(ss, i, j - 1, k);
    }
  }

  lemma {:induction false} UidsGrow(ss: seq<State>, i: nat, j: nat)
    requires i <= j < |ss|
    requires forall m | i <= m < j :: KeepsRecords(ss[m], ss[m + 1])
    ensures ss[i].nextUid <= ss[j].nextUid
    decreases j
  {
    if i < j {
      UidsGrow(ss, i, j - 1);
      assert KeepsRecords(ss[j - 1], ss[j - 1 + 1]);
    }
  }

  /**
   * Whatever fails and however old the claim was when a reconciliation read it: between two
   * states without a start in between, an incarnation that was bound keeps its lease, its
   * deadline, its connection and its Secret, and is still bound or being released.
   */
  lemma BoundOnce(pool: Pool, ss: seq<State>, es: seq<Event>, i: nat, j: nat, k: ClaimKey)
    requires ValidConfig(pool.accounts) && IsRun(pool, ss, es) && i <= j < |ss|
    requires forall m | i <= m < j :: !es[m].Started?
    requires k in ss[i].store.claims && ss[i].store.claims[k].status.phase == Bound
    requires k in ss[j].store.claims && ss[j].store.claims[k].uid == ss[i].store.claims[k].uid
    ensures ss[i].store.claims[k].status.leaseName != ""
    ensures SameRecord(ss[i].store.claims[k].status, ss[j].store.claims[k].status)
  {
    RunSound(pool, ss, es, i);
    forall m | i <= m < j ensures KeepsRecords(ss[m], ss[m + 1]) {
      RunStepKeepsRecords(pool, ss, es, m);
    }
    KeptAlong(ss, i, j, k);
  }
}
