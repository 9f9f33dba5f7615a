/**
 * What a cache may return. Every effective write gives its object a new version, so whatever
 * version of a lease or of a claim an earlier state held is a possible read later on: the
 * reads that `Possible` allows include every state of the past.
 */
module Versions {
  import opened Wrappers
  import opened Objects
  import opened Names
  import opened LeaseRules
  import opened Stores
  import opened Accounts
  import opened Leasing
  import opened Snowflake
  import opened Reconciling
  import opened Starting
  import opened Steps
  import opened Runs
  import opened Lifecycle

  /** No claim appears, and each that stays is unchanged or a later version of the same incarnation. */
  ghost predicate ClaimsAdvance(claims: Claims, claims': Claims) {
    forall k | k in claims' ::
      && k in claims && claims'[k].uid == claims[k].uid
      && (claims'[k] == claims[k] || claims'[k].gen > claims[k].gen)
  }

  /** No lease disappears, and each is unchanged or a later version under the same labels. */
  ghost predicate LeasesAdvance(leases: Leases, leases': Leases) {
    forall n | n in leases ::
      && n in leases' && leases'[n].name == leases[n].name && leases'[n].labels == leases[n].labels
      && (leases'[n] == leases[n] || leases'[n].version > leases[n].version)
  }

  lemma StatusAdvances(claims: Claims, k: ClaimKey, c: Claim, accepted: bool)
    ensures ClaimsAdvance(claims, UpdateStatus(claims, k, c, accepted).0)
  {
  }

  lemma FinalizerAdvances(claims: Claims, k: ClaimKey, c: Claim, accepted: bool)
    ensures ClaimsAdvance(claims, UpdateFinalizer(claims, k, c, accepted).0)
  {
  }

  lemma DeletionAdvances(claims: Claims, k: ClaimKey)
    ensures ClaimsAdvance(claims, DeleteClaim(claims, k))
  {
  }

  lemma ClaimsAdvanceTwice(a: Claims, b: Claims, c: Claims)
    requires ClaimsAdvance(a, b) && ClaimsAdvance(b, c)
    ensures ClaimsAdvance(a, c)
  {
  }

  lemma LeasesAdvanceTwice(a: Leases, b: Leases, c: Leases)
    requires LeasesAdvance(a, b) && LeasesAdvance(b, c)
    ensures LeasesAdvance(a, c)
  {
  }

  lemma ReleaseAdvances(leases: Leases, read: Option<Lease>, accepted: bool)
    ensures LeasesAdvance(leases, Release(leases, read, accepted).0)
  {
  }

  lemma TakeAdvances(st: Store, k: ClaimKey, e: Env)
    requires e.get.Got?
    ensures LeasesAdvance(st.leases, TakenLeases(st, k, e))
  {
    hide Held, DurationOf, HolderIdentity;
  }

  lemma ProvisionAdvances(pool: Pool, st: Store, k: ClaimKey, c: Claim, name: string, a: Account, clock: Clock,
                          e: AcquireEnv, st': Store)
    requires ProvisionEnd(pool, st, k, c, name, a, clock, e, st')
    ensures ClaimsAdvance(st.claims, st'.claims) && LeasesAdvance(st.leases, st'.leases)
  {
    hide AcquireResource, UpdateStatus, BoundClaim, Release, ClaimsAdvance;
    StatusAdvances(st.claims, k, WithPhase(c, Failed), e.statusOk);
    StatusAdvances(st.claims, k, BoundClaim(k, c, name, a, clock), e.statusOk);
    ReleaseAdvances(st.leases, e.giveBack.read, e.giveBack.accepted);
  }

  lemma AcquireAdvances(pool: Pool, st: Store, k: ClaimKey, e: Env, st': Store)
    requires e.get.Got? && AcquireEnd(pool, st, k, e, st')
    ensures ClaimsAdvance(st.claims, st'.claims) && LeasesAdvance(st.leases, st'.leases)
  {
    hide ProvisionEnd, UpdateStatus, TakenLeases, Taken, LeasesAdvance, ClaimsAdvance, FindFree;
    match Taken(pool, st, k, e)
    case None =>
      StatusAdvances(st.claims, k, WithPhase(e.get.claim, Pending), e.acquire.statusOk);
      StatusAdvances(st.claims, k, WithPhase(e.get.claim, Failed), e.acquire.statusOk);
      SameLeases(st.leases);
    case Some(name) =>
      var st1 := st.(leases := TakenLeases(st, k, e));
      ProvisionAdvances(pool, st1, k, e.get.claim, name, AccountFor(pool, st.leases, name).value, e.clock, e.acquire,
          st');
      TakeAdvances(st, k, e);
      LeasesAdvanceTwice(st.leases, st1.leases, st'.leases);
  }

  lemma SameLeases(leases: Leases)
    ensures LeasesAdvance(leases, leases)
  {
  }

  lemma SameClaims(claims: Claims)
    ensures ClaimsAdvance(claims, claims)
  {
  }

  lemma DeletionEndAdvances(pool: Pool, st: Store, k: ClaimKey, c: Claim, e: DeletionEnv, st': Store)
    requires DeletionEnd(pool, st, k, c, e, st')
    ensures ClaimsAdvance(st.claims, st'.claims) && LeasesAdvance(st.leases, st'.leases)
  {
    hide ReleaseRecorded, UpdateStatus, UpdateFinalizer, Release, ClaimsAdvance, LeasesAdvance;
    SameClaims(st.claims);
    SameLeases(st.leases);
    var (claims, held) := MarkClaims(st.claims, k, c, e.statusOk);
    StatusAdvances(st.claims, k, WithPhase(c, Releasing), e.statusOk);
    FinalizerAdvances(claims, k, held.(finalizer := false), e.finalizerOk);
    ClaimsAdvanceTwice(st.claims, claims, UpdateFinalizer(claims, k, held.(finalizer := false), e.finalizerOk).0);
    ReleaseAdvances(st.leases, e.release.read, e.release.accepted);
  }

  lemma ReconcileAdvances(pool: Pool, st: Store, k: ClaimKey, e: Env, st': Store)
    requires ReconcileEnd(pool, st, k, e, st')
    ensures ClaimsAdvance(st.claims, st'.claims) && LeasesAdvance(st.leases, st'.leases)
  {
    hide DeletionEnd, AcquireEnd, UpdateStatus, UpdateFinalizer, DeleteClaim, ClaimsAdvance, LeasesAdvance;
    SameClaims(st.claims);
    SameLeases(st.leases);
    if e.get.Got? {
      var c := e.get.claim;
      StatusAdvances(st.claims, k, WithPhase(c, Failed), e.statusOk);
      FinalizerAdvances(st.claims, k, c.(finalizer := true), e.finalizerOk);
      DeletionAdvances(st.claims, k);
      if c.spec.typ == PROVIDER && c.deleting {
        DeletionEndAdvances(pool, st, k, c, e.deletion, st');
      } else if c.spec.typ == PROVIDER && c.finalizer && c.status.phase != Bound {
        AcquireAdvances(pool, st, k, e, st');
      }
    }
  }

  lemma StartAdvances(pool: Pool, st: Store, start: StartEnv)
    ensures ClaimsAdvance(st.claims, Start(pool, st, start).0.claims)
    ensures LeasesAdvance(st.leases, Start(pool, st, start).0.leases)
  {
    hide LeaseName, LeaseLabels;
    InitializeGrows(pool, st.leases, 0, start.creates);
  }

  /** A step keeps old incarnations as they are or advances them; a new claim gets a fresh uid. */
  ghost predicate Advances(s: State, s': State) {
    && s.nextUid <= s'.nextUid && LeasesAdvance(s.store.leases, s'.store.leases)
    && forall k | k in s'.store.claims && s'.store.claims[k].uid < s.nextUid ::
         && k in s.store.claims && s.store.claims[k].uid == s'.store.claims[k].uid
         && (s'.store.claims[k] == s.store.claims[k] || s'.store.claims[k].gen > s.store.claims[k].gen)
  }

  lemma StepAdvances(pool: Pool, s: State, e: Event)
    requires Sound(pool, s) && Allowed(pool, s, e)
    ensures Advances(s, Next(pool, s, e))
  {
    hide Start, Reconcile, LeasesSound, ClaimsSound;
    SameLeases(s.store.leases);
    match e
    case Reconciled(k, env) =>
      ReconcileEnds(pool, s.store, s.now, k, env);
      ReconcileAdvances(pool, s.store, k, env, Reconcile(pool, s.store, k, env).0);
    case Crashed(k, env) =>
      ReconcileEnds(pool, s.store, s.now, k, env);
      ReconcileAdvances(pool, s.store, k, env, Reconcile(pool, s.store, k, env).0);
    case Started(start, survives) => StartAdvances(pool, s.store, start);
    case UserDelete(k) => DeletionAdvances(s.store.claims, k);
    case _ =>
  }

  lemma RunStepAdvances(pool: Pool, ss: seq<State>, es: seq<Event>, m: nat)
    requires ValidConfig(pool.accounts) && IsRun(pool, ss, es) && m < |es|
    ensures Advances(ss[m], ss[m + 1])
  {
    hide Next, Allowed, Sound, Advances, ValidConfig;
    RunSound(pool, ss, es, m);
    StepAdvances(pool, ss[m], es[m]);
  }

  lemma {:induction false} AdvancesAlong(ss: seq<State>, i: nat, j: nat)
    requires i <= j < |ss| && forall m | i <= m < j :: Advances(ss[m], ss[m + 1])
    ensures Advances(ss[i], ss[j])
    decreases j
  {
    if i < j {
      AdvancesAlong(ss, i, j - 1);
      assert Advances(ss[j - 1], ss[j - 1 + 1]);
      AdvancesTwice(ss[i], ss[j - 1], ss[j]);
    }
  }

  lemma AdvancesTwice(a: State, b: State, c: State)
    requires Advances(a, b) && Advances(b, c)
    ensures Advances(a, c)
  {
    LeasesAdvanceTwice(a.store.leases, b.store.leases, c.store.leases);
  }

  /** Over every run, each lease and each claim of an earlier state is a possible read in every later state. */
  lemma RunPastIsPossible(pool: Pool, ss: seq<State>, es: seq<Event>, i: nat, j: nat)
    requires ValidConfig(pool.accounts) && IsRun(pool, ss, es) && i <= j < |ss|
    ensures forall n | n in ss[i].store.leases :: PossibleRead(ss[j].store.leases, ss[i].store.leases[n])
    ensures forall k | k in ss[i].store.claims :: PossibleClaimRead(ss[j].store.claims, k, ss[i].store.claims[k])
  {
    hide LeasesAdvance, ValidConfig, LeasesSound, ClaimsSound;
    forall m | i <= m < j ensures Advances(ss[m], ss[m + 1]) {
      RunStepAdvances(pool, ss, es, m);
    }
    AdvancesAlong(ss, i, j);
    RunSound(pool, ss, es, i);
    LeasesPossible(pool, ss[i].store.leases, ss[j].store.leases, ss[i].now);
  }

  lemma LeasesPossible(pool: Pool, leases: Leases, leases': Leases, now: int)
    requires LeasesAdvance(leases, leases') && LeasesSound(pool, leases, now)
    ensures forall n | n in leases :: PossibleRead(leases', leases[n])
  {
    hide LeaseSound;
  }
}
