/**
 * Convergence. With no faults, a fixed clock and no user in between, every reconciliation
 * either changes nothing or lowers a measure of the claims; under any fair schedule the pool
 * therefore settles, with every deleting or expired claim gone and no claim left waiting for
 * a lease it could have.
 */
module Convergence {
  import opened Wrappers
  import opened Objects
  import opened LeaseRules
  import opened Stores
  import opened Accounts
  import opened Leasing
  import opened Snowflake
  import opened Reconciling
  import opened Steps
  import opened Lifecycle
  import opened Exclusivity
  import opened Scrubbing

  /** How far a claim is from being settled. */
  function Rank(c: Claim, now: int): nat {
    if c.spec.typ != PROVIDER then (if c.status.phase == Failed then 0 else 1)
    else if c.deleting then 1
    else if !c.finalizer then 5
    else if c.status.phase == Bound then (if c.status.expiresAt.Some? && now > c.status.expiresAt.value then 2 else 0)
    else if c.status.phase == Pending then 3
    else 4
  }

  ghost function Total(claims: Claims, now: int): nat
    decreases |claims|
  {
    if claims == map[] then 0
    else
      var k :| k in claims;
      Rank(claims[k], now) + Total(claims - {k}, now)
  }

  /** The sum does not depend on the order in which it is taken. */
  lemma {:induction false} TotalSplits(claims: Claims, now: int, k: ClaimKey)
    requires k in claims
    ensures Total(claims, now) == Rank(claims[k], now) + Total(claims - {k}, now)
    decreases |claims|
  {
    var j :| j in claims && Total(claims, now) == Rank(claims[j], now) + Total(claims - {j}, now);
    if j != k {
      TotalSplits(claims - {j}, now, k);
      TotalSplits(claims - {k}, now, j);
      assert claims - {j} - {k} == claims - {k} - {j};
    }
  }

  /** `items` lists exactly the current leases. */
  ghost predicate Lists(items: seq<Seen>, leases: Leases, now: int) {
    && (forall s | s in items :: s.lease.name in leases && s.lease == leases[s.lease.name] && s.at == now)
    && forall n | n in leases :: Seen(leases[n], now) in items
  }

  /** No call on the path of this reconciliation fails, every read is current, the clock stands still. */
  ghost predicate FaultFree(pool: Pool, st: Store, now: int, k: ClaimKey, e: Env) {
    && e.clock == Clock(now, now, now, now, now)
    && e.get == (if k in st.claims then Got(st.claims[k]) else Gone)
    && e.statusOk && e.finalizerOk && e.deleteOk
    && e.acquire.view.Some? && Lists(e.acquire.view.value, st.leases, now)
    && e.acquire.takeOk && e.acquire.statusOk
    && (forall a | a in pool.accounts ::
        AcquireAllOk(a, e.acquire.provider) && AdminReady(st.secrets, k.ns, a.credentialSecretName))
    && e.deletion.statusOk && e.deletion.finalizerOk && e.deletion.release.accepted
    && (k in st.claims ==>
          var c := st.claims[k];
          && (c.status.leaseName in st.leases ==> e.deletion.release.read == Some(st.leases[c.status.leaseName]))
          && (c.status.leaseName !in st.leases ==> e.deletion.release.read.None?)
          && (var found := FindFree(e.acquire.view, c.spec.typ, c.spec.requiredLabels);
              found.Some? ==>
                && e.acquire.read == found
                && (e.acquire.giveBack.read.Some? ==> e.acquire.giveBack.read.value.name == found.value.name)))
  }

  lemma FaultFreeIsPossible(pool: Pool, st: Store, now: int, k: ClaimKey, e: Env)
    requires LeasesSound(pool, st.leases, now) && FaultFree(pool, st, now, k, e)
    ensures Possible(pool, st, now, k, e) && CurrentRead(st, k, e)
  {
    hide LeaseSound, FindFree, AcquireAllOk, AdminReady;
    if k in st.claims {
      var c := st.claims[k];
      var found := FindFree(e.acquire.view, c.spec.typ, c.spec.requiredLabels);
      if found.Some? {
        FoundIsListed(e.acquire.view.value, c.spec.typ, c.spec.requiredLabels);
      }
    }
  }

  lemma FoundIsListed(items: seq<Seen>, typ: string, required: map<string, string>)
    ensures var found := FindFree(Some(items), typ, required);
            found.Some? ==> exists at :: Seen(found.value, at) in items
  {
    FindFreeIsExact(items, typ, required);
  }

  /** A free lease that carries the required labels. */
  ghost predicate HasCandidate(leases: Leases, now: int, required: map<string, string>) {
    exists n :: n in leases && Candidate(leases[n], now, PROVIDER, required)
  }

  /** The search over a current listing finds a lease exactly when the store has a candidate. */
  lemma FindsCandidate(leases: Leases, items: seq<Seen>, now: int, required: map<string, string>)
    requires Lists(items, leases, now)
    ensures FindFree(Some(items), PROVIDER, required).Some? <==> HasCandidate(leases, now, required)
    ensures var found := FindFree(Some(items), PROVIDER, required);
            found.Some? ==>
              && found.value.name in leases && found.value == leases[found.value.name]
              && IsFree(found.value.spec, now)
  {
    hide Candidate;
    FindFreeIsExact(items, PROVIDER, required);
    var found := FindFree(Some(items), PROVIDER, required);
    if HasCandidate(leases, now, required) {
      var n :| n in leases && Candidate(leases[n], now, PROVIDER, required);
      assert Seen(leases[n], now) in items;
      var i :| 0 <= i < |items| && items[i] == Seen(leases[n], now);
      assert Suits(items[i], PROVIDER, required);
      assert found.Some?;
    }
    if found.Some? {
      var i :| 0 <= i < |items| && items[i].lease == found.value && Suits(items[i], PROVIDER, required);
      assert items[i] in items;
      CandidateIsFree(found.value, now, required);
      assert Candidate(leases[found.value.name], now, PROVIDER, required);
    }
  }

  lemma CandidateIsFree(l: Lease, now: int, required: map<string, string>)
    ensures Candidate(l, now, PROVIDER, required) ==> IsFree(l.spec, now)
  {
  }

  /** Fault-free, an acquisition takes a lease exactly when one is to be had. */
  lemma FaultFreeTakes(pool: Pool, st: Store, now: int, k: ClaimKey, e: Env)
    requires LeasesSound(pool, st.leases, now) && FaultFree(pool, st, now, k, e) && k in st.claims
    requires var c := st.claims[k]; c.spec.typ == PROVIDER && !c.deleting && c.finalizer && c.status.phase != Bound
    ensures Taken(pool, st, k, e).Some? <==> HasCandidate(st.leases, now, st.claims[k].spec.requiredLabels)
    ensures Taken(pool, st, k, e).None? ==>
              AcquireClaim(pool, st, k, st.claims[k], e.clock, e.acquire).0
                  == WritePhase(st, k, st.claims[k], Pending, true).0
  {
    hide ProvisionClaim, FindFree, HasCandidate, LeaseSound, AcquireAllOk, AdminReady, Held;
    var c := st.claims[k];
    FindsCandidate(st.leases, e.acquire.view.value, now, c.spec.requiredLabels);
    FaultFreeIsPossible(pool, st, now, k, e);
    FoundLease(pool, st.leases, now, e.acquire.view, c.spec.typ, c.spec.requiredLabels);
  }

  /** Nothing changed, or only the claim `k` did and it came closer to being settled. */
  ghost predicate Progress(st: Store, st': Store, now: int, k: ClaimKey) {
    || st' == st
    || (OnlyClaim(st.claims, st'.claims, k) && k in st.claims
        && (k !in st'.claims || Rank(st'.claims[k], now) < Rank(st.claims[k], now))
        && (k in st'.claims || Rank(st.claims[k], now) > 0))
  }

  /** What a claim looks like when reconciling it changes nothing. */
  ghost predicate SettledClaim(st: Store, now: int, c: Claim) {
    if c.spec.typ != PROVIDER then c.status.phase == Failed && !c.deleting
    else
      && !c.deleting && c.finalizer
      && if c.status.phase == Bound then c.status.expiresAt.Some? && now <= c.status.expiresAt.value
         else c.status.phase == Pending && !HasCandidate(st.leases, now, c.spec.requiredLabels)
  }

  lemma DeletionProgress(pool: Pool, st: Store, now: int, k: ClaimKey, e: Env, st': Store)
    requires ClaimsSound(st.leases.Keys, st.claims) && FaultFree(pool, st, now, k, e) && k in st.claims
    requires LeasesSound(pool, st.leases, now)
    requires st.claims[k].deleting && st.claims[k].spec.typ == PROVIDER
    requires DeletionEnd(pool, st, k, st.claims[k], e.deletion, st')
    ensures OnlyClaim(st.claims, st'.claims, k) && k !in st'.claims
  {
    hide DeletionEnd, LeaseSound;
    var c := st.claims[k];
    assert ClaimSound(st.leases.Keys, c);
    if c.status.leaseName != "" {
      Leasing.ReleaseEffect(st.leases, e.deletion.release.read, e.deletion.release.accepted);
    }
    DeletionLeaves(pool, st, k, c, e.deletion, st');
  }

  lemma TakingProgress(pool: Pool, st: Store, now: int, k: ClaimKey, e: Env, st': Store, name: string)
    requires ValidConfig(pool.accounts) && LeasesSound(pool, st.leases, now) && ClaimsSound(st.leases.Keys, st.claims)
    requires FaultFree(pool, st, now, k, e) && k in st.claims
    requires var c := st.claims[k]; c.spec.typ == PROVIDER && !c.deleting && c.finalizer && c.status.phase != Bound
    requires AcquireEnd(pool, st, k, e, st') && Taken(pool, st, k, e) == Some(name)
    ensures OnlyClaim(st.claims, st'.claims, k) && k in st'.claims
    ensures st'.claims[k].status.phase == Bound && Rank(st'.claims[k], now) < Rank(st.claims[k], now)
  {
    hide ProvisionEnd, LeasesSound, AcquireAllOk, AdminReady, TakenLeases, Taken, SameElsewhere, Lists;
    var c := st.claims[k];
    SoundAccount(pool, st.leases, now, name);
    var a := AccountFor(pool, st.leases, name).value;
    FaultFreeRead(pool, st, now, k, e);
    AcquireLeaves(pool, st, k, e, st');
    TakingBinds(pool, st.(leases := TakenLeases(st, k, e)), k, c, name, a, e.clock, e.acquire, st');
    TakingKeeps(pool, st.(leases := TakenLeases(st, k, e)), k, c, name, a, e.clock, e.acquire, st');
  }

  lemma FaultFreeRead(pool: Pool, st: Store, now: int, k: ClaimKey, e: Env)
    requires FaultFree(pool, st, now, k, e)
    ensures CurrentRead(st, k, e)
  {
  }

  lemma TakingKeeps(pool: Pool, st: Store, k: ClaimKey, c: Claim, name: string, a: Account, clock: Clock,
                    e: AcquireEnv, st': Store)
    requires k in st.claims && c == st.claims[k] && ProvisionEnd(pool, st, k, c, name, a, clock, e, st')
    ensures k in st'.claims && st'.claims[k] == c.(status := st'.claims[k].status, gen := st'.claims[k].gen)
  {
    hide AcquireResource, AccountFromUrl, AccountIdentifier, BoundStatus;
  }

  /** Unknown types, missing finalizers and bound claims. */
  lemma OtherProgress(pool: Pool, st: Store, now: int, k: ClaimKey, e: Env, st': Store)
    requires FaultFree(pool, st, now, k, e) && k in st.claims && ClaimSound(st.leases.Keys, st.claims[k])
    requires var c := st.claims[k]; c.spec.typ != PROVIDER || (!c.deleting && (!c.finalizer || c.status.phase == Bound))
    requires st' == Reconcile(pool, st, k, e).0
    ensures Progress(st, st', now, k)
    ensures st' == st ==> SettledClaim(st, now, st.claims[k])
  {
    hide HandleDeletion, AcquireClaim, Lists, AcquireAllOk, AdminReady, FindFree;
  }

  lemma WaitingProgress(st: Store, now: int, k: ClaimKey, st': Store)
    requires k in st.claims && st' == WritePhase(st, k, st.claims[k], Pending, true).0
    requires var c := st.claims[k]; c.spec.typ == PROVIDER && !c.deleting && c.finalizer && c.status.phase != Bound
    ensures Progress(st, st', now, k)
    ensures st' == st ==> st.claims[k].status.phase == Pending
  {
  }

  /** One fault-free reconciliation makes progress or changes nothing, and then its claim is settled. */
  lemma ReconcileProgress(pool: Pool, st: Store, now: int, k: ClaimKey, e: Env, st': Store)
    requires ValidConfig(pool.accounts) && LeasesSound(pool, st.leases, now) && ClaimsSound(st.leases.Keys, st.claims)
    requires FaultFree(pool, st, now, k, e) && st' == Reconcile(pool, st, k, e).0
    ensures Progress(st, st', now, k)
    ensures st' == st && k in st.claims ==> SettledClaim(st, now, st.claims[k])
  {
    if k in st.claims {
      var c := st.claims[k];
      assert ClaimSound(st.leases.Keys, c);
      if c.spec.typ == PROVIDER && c.deleting {
        DeletingProgress(pool, st, now, k, e, st');
      } else if c.spec.typ == PROVIDER && c.finalizer && c.status.phase != Bound {
        UnboundProgress(pool, st, now, k, e, st');
      } else {
        OtherProgress(pool, st, now, k, e, st');
      }
    } else {
      GoneProgress(pool, st, now, k, e);
    }
  }

  lemma GoneProgress(pool: Pool, st: Store, now: int, k: ClaimKey, e: Env)
    requires FaultFree(pool, st, now, k, e) && k !in st.claims
    ensures Reconcile(pool, st, k, e).0 == st
  {
  }

  lemma DeletingProgress(pool: Pool, st: Store, now: int, k: ClaimKey, e: Env, st': Store)
    requires LeasesSound(pool, st.leases, now) && ClaimsSound(st.leases.Keys, st.claims)
    requires FaultFree(pool, st, now, k, e) && st' == Reconcile(pool, st, k, e).0
    requires k in st.claims && st.claims[k].deleting && st.claims[k].spec.typ == PROVIDER
    ensures Progress(st, st', now, k) && st' != st
  {
    hide DeletionEnd, LeaseSound, HandleDeletion, Possible;
    FaultFreeIsPossible(pool, st, now, k, e);
    ReconcileEnds(pool, st, now, k, e);
    DeletionProgress(pool, st, now, k, e, st');
  }

  lemma UnboundProgress(pool: Pool, st: Store, now: int, k: ClaimKey, e: Env, st': Store)
    requires ValidConfig(pool.accounts) && LeasesSound(pool, st.leases, now) && ClaimsSound(st.leases.Keys, st.claims)
    requires FaultFree(pool, st, now, k, e) && st' == Reconcile(pool, st, k, e).0 && k in st.claims
    requires var c := st.claims[k]; c.spec.typ == PROVIDER && !c.deleting && c.finalizer && c.status.phase != Bound
    ensures Progress(st, st', now, k)
    ensures st' == st ==> SettledClaim(st, now, st.claims[k])
  {
    hide AcquireEnd, LeasesSound, ValidConfig, AcquireClaim, Possible, HasCandidate, Taken;
    FaultFreeIsPossible(pool, st, now, k, e);
    ReconcileEnds(pool, st, now, k, e);
    FaultFreeTakes(pool, st, now, k, e);
    if Taken(pool, st, k, e).Some? {
      TakingProgress(pool, st, now, k, e, st', Taken(pool, st, k, e).value);
    } else {
      WaitingProgress(st, now, k, st');
    }
  }

  // Whole runs.

  /** One step of a fault-free trace. */
  ghost predicate StepAt(pool: Pool, now: int, tr: nat -> Store, act: nat -> (ClaimKey, Env), n: nat) {
    FaultFree(pool, tr(n), now, act(n).0, act(n).1) && tr(n + 1) == Reconcile(pool, tr(n), act(n).0, act(n).1).0
  }

  /** An unbounded fault-free trace from a sound store. */
  ghost predicate Trace(pool: Pool, now: int, tr: nat -> Store, act: nat -> (ClaimKey, Env)) {
    && ValidConfig(pool.accounts) && LeasesSound(pool, tr(0).leases, now)
        && ClaimsSound(tr(0).leases.Keys, tr(0).claims)
    && forall n: nat :: StepAt(pool, now, tr, act, n)
  }

  ghost predicate ReconciledAfter(act: nat -> (ClaimKey, Env), k: ClaimKey, n: nat) {
    exists m: nat :: n <= m && act(m).0 == k
  }

  /** Every claim of the store is reconciled again and again. */
  ghost predicate Fair(tr: nat -> Store, act: nat -> (ClaimKey, Env)) {
    forall k, n: nat | k in tr(0).claims :: ReconciledAfter(act, k, n)
  }

  lemma {:induction false} TraceSound(pool: Pool, now: int, tr: nat -> Store, act: nat -> (ClaimKey, Env), n: nat)
    requires Trace(pool, now, tr, act)
    ensures LeasesSound(pool, tr(n).leases, now) && ClaimsSound(tr(n).leases.Keys, tr(n).claims)
    ensures tr(n).claims.Keys <= tr(0).claims.Keys
  {
    hide LeasesSound, ValidConfig, FaultFree, Reconcile, ReconcileEnd, Possible;
    if n > 0 {
      TraceSound(pool, now, tr, act, n - 1);
      assert StepAt(pool, now, tr, act, n - 1);
      var k, e := act(n - 1).0, act(n - 1).1;
      FaultFreeIsPossible(pool, tr(n - 1), now, k, e);
      ReconcileEnds(pool, tr(n - 1), now, k, e);
      ReconcileSound(pool, tr(n - 1), now, k, e, tr(n));
      StillClock(pool, tr(n - 1), now, k, e);
      EvolvedSound(pool, tr(n - 1).leases, tr(n).leases, now, now);
    }
  }

  lemma StillClock(pool: Pool, st: Store, now: int, k: ClaimKey, e: Env)
    requires FaultFree(pool, st, now, k, e)
    ensures e.clock.bind == now
  {
  }

  lemma ProgressLowers(st: Store, st': Store, now: int, k: ClaimKey)
    requires Progress(st, st', now, k) && st' != st
    ensures Total(st'.claims, now) < Total(st.claims, now)
  {
    TotalSplits(st.claims, now, k);
    if k in st'.claims {
      TotalSplits(st'.claims, now, k);
      assert st'.claims - {k} == st.claims - {k};
    } else {
      assert st'.claims == st.claims - {k};
    }
  }

  lemma TraceStep(pool: Pool, now: int, tr: nat -> Store, act: nat -> (ClaimKey, Env), n: nat)
    requires Trace(pool, now, tr, act)
    ensures tr(n + 1) == tr(n) || Total(tr(n + 1).claims, now) < Total(tr(n).claims, now)
    ensures tr(n + 1) == tr(n) && act(n).0 in tr(n).claims ==> SettledClaim(tr(n), now, tr(n).claims[act(n).0])
  {
    hide LeasesSound, ValidConfig, FaultFree, Reconcile, Progress, SettledClaim;
    TraceSound(pool, now, tr, act, n);
    assert StepAt(pool, now, tr, act, n);
    ReconcileProgress(pool, tr(n), now, act(n).0, act(n).1, tr(n + 1));
    if tr(n + 1) != tr(n) {
      ProgressLowers(tr(n), tr(n + 1), now, act(n).0);
    }
  }

  /** The number of the first `n` steps that change something. */
  ghost function EffectiveSteps(tr: nat -> Store, n: nat): nat {
    if n == 0 then 0 else EffectiveSteps(tr, n - 1) + if tr(n) != tr(n - 1) then 1 else 0
  }

  /** Never more steps have an effect than the measure allowed at the start. */
  lemma {:induction false} EffectiveStepsBounded(pool: Pool, now: int, tr: nat -> Store, act: nat -> (ClaimKey, Env),
                                                 n: nat)
    requires Trace(pool, now, tr, act)
    ensures EffectiveSteps(tr, n) + Total(tr(n).claims, now) <= Total(tr(0).claims, now)
  {
    if n > 0 {
      EffectiveStepsBounded(pool, now, tr, act, n - 1);
      TraceStep(pool, now, tr, act, n - 1);
    }
  }

  ghost predicate StableFrom(tr: nat -> Store, n: nat) {
    forall m: nat | n <= m :: tr(m) == tr(n)
  }

  lemma {:induction false} TotalFalls(pool: Pool, now: int, tr: nat -> Store, act: nat -> (ClaimKey, Env), n: nat,
                                      m: nat)
    requires Trace(pool, now, tr, act) && n <= m
    ensures Total(tr(m).claims, now) <= Total(tr(n).claims, now)
    decreases m
  {
    if n < m {
      TotalFalls(pool, now, tr, act, n, m - 1);
      TraceStep(pool, now, tr, act, m - 1);
    }
  }

  lemma {:induction false} UnchangedUntil(tr: nat -> Store, n: nat, m: nat)
    requires n <= m && forall i: nat | n <= i :: tr(i + 1) == tr(i)
    ensures tr(m) == tr(n)
    decreases m
  {
    if n < m {
      UnchangedUntil(tr, n, m - 1);
      assert tr(m - 1 + 1) == tr(m - 1);
    }
  }

  lemma {:induction false} Stabilises(pool: Pool, now: int, tr: nat -> Store, act: nat -> (ClaimKey, Env), n: nat)
    returns (stable: nat)
    requires Trace(pool, now, tr, act)
    ensures n <= stable && StableFrom(tr, stable)
    decreases Total(tr(n).claims, now)
  {
    hide Trace;
    if m: nat :| n <= m && tr(m + 1) != tr(m) {
      TotalFalls(pool, now, tr, act, n, m);
      TraceStep(pool, now, tr, act, m);
      stable := Stabilises(pool, now, tr, act, m + 1);
    } else {
      stable := n;
      forall m: nat | n <= m ensures tr(m) == tr(n) {
        UnchangedUntil(tr, n, m);
      }
    }
  }

  /** Every claim is settled: none is deleting or expired, and none waits for a lease it could have. */
  ghost predicate Settled(st: Store, now: int) {
    forall k | k in st.claims :: SettledClaim(st, now, st.claims[k])
  }

  /** Under any fair fault-free schedule the store stops changing, and then every claim is settled. */
  lemma FairTracesSettle(pool: Pool, now: int, tr: nat -> Store, act: nat -> (ClaimKey, Env)) returns (stable: nat)
    requires Trace(pool, now, tr, act) && Fair(tr, act)
    ensures StableFrom(tr, stable) && Settled(tr(stable), now)
  {
    hide Trace, SettledClaim;
    stable := Stabilises(pool, now, tr, act, 0);
    forall k | k in tr(stable).claims ensures SettledClaim(tr(stable), now, tr(stable).claims[k]) {
      TraceSound(pool, now, tr, act, stable);
      assert k in tr(0).claims && ReconciledAfter(act, k, stable);
      var m: nat :| stable <= m && act(m).0 == k;
      assert tr(m) == tr(stable) && tr(m + 1) == tr(stable);
      TraceStep(pool, now, tr, act, m);
    }
  }
}
