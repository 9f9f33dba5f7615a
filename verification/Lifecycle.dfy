/**
 * What holds in every state of every run, whatever fails, however stale the reads are and
 * wherever the operator crashes.
 */
module Lifecycle {
  import opened Objects
  import opened Names
  import opened LeaseRules
  import opened Stores
  import opened Accounts
  import opened Leasing
  import opened Snowflake
  import opened Reconciling
  import opened Starting
  import opened Steps
  import opened Runs

  /** The claim asks for this duration, or for none and gets one hour. */
  predicate Lasts(spec: ClaimSpec, d: int) {
    match spec.duration
    case Some(requested) => d == requested
    case None => d == 3_600 * 1_000_000_000
  }

  /** The deadline is the binding time plus the requested duration, both cut to whole seconds. */
  ghost predicate DeadlineRecorded(c: Claim) {
    && c.status.acquiredAt.Some? && c.status.expiresAt.Some?
    && var length := c.status.expiresAt.value - c.status.acquiredAt.value;
       forall d | Lasts(c.spec, d) ::
         length == d - d % 1_000_000_000 || (length == d - d % 1_000_000_000 + 1_000_000_000 && d % 1_000_000_000 != 0)
  }

  /** A claim records a lease with times, connection and Secret, while Bound or Releasing, or nothing at all. */
  ghost predicate ClaimSound(names: set<string>, c: Claim) {
    && (if c.status.leaseName != ""
        then && (c.status.phase == Bound || c.status.phase == Releasing) && c.status.leaseName in names
             && DeadlineRecorded(c) && c.status.connection.Some? && c.status.credentialSecret.Some?
        else && c.status.acquiredAt.None? && c.status.expiresAt.None?
             && c.status.connection.None? && c.status.credentialSecret.None?)
    && (c.status.phase == Bound ==> c.finalizer && c.status.leaseName != "")
    && (c.status.phase == Releasing ==> c.deleting)
    && (c.deleting ==> c.finalizer)
    && (c.finalizer ==> c.spec.typ == PROVIDER)
  }

  ghost predicate ClaimsSound(names: set<string>, claims: Claims) {
    forall k | k in claims :: ValidKey(k) && ClaimSound(names, claims[k])
  }

  ghost predicate Sound(pool: Pool, s: State) {
    && LeasesSound(pool, s.store.leases, s.now)
    && ClaimsSound(s.store.leases.Keys, s.store.claims)
    && forall k | k in s.store.claims :: s.store.claims[k].uid < s.nextUid
  }

  /** The claims other than `k` are untouched, and `k` keeps its uid, spec and sound status. */
  ghost predicate OnlyClaim(claims: Claims, claims': Claims, k: ClaimKey) {
    && (forall j | j != k :: (j in claims <==> j in claims') && (j in claims ==> claims'[j] == claims[j]))
    && (k in claims' ==> k in claims && claims'[k].uid == claims[k].uid && claims'[k].spec == claims[k].spec)
  }

  lemma StatusWrite(names: set<string>, claims: Claims, k: ClaimKey, c: Claim, accepted: bool)
    requires ClaimsSound(names, claims)
    requires IsCurrent(claims, k, c) ==> ClaimSound(names, claims[k].(status := c.status))
    ensures var claims' := UpdateStatus(claims, k, c, accepted).0;
            ClaimsSound(names, claims') && OnlyClaim(claims, claims', k)
  {
  }

  lemma FinalizerWrite(names: set<string>, claims: Claims, k: ClaimKey, c: Claim, accepted: bool)
    requires ClaimsSound(names, claims)
    requires IsCurrent(claims, k, c) ==>
               if c.finalizer then c.spec.typ == PROVIDER && claims[k].spec == c.spec else claims[k].deleting
    ensures var claims' := UpdateFinalizer(claims, k, c, accepted).0;
            ClaimsSound(names, claims') && OnlyClaim(claims, claims', k)
  {
  }

  lemma Deletion(names: set<string>, claims: Claims, k: ClaimKey)
    requires ClaimsSound(names, claims)
    ensures ClaimsSound(names, DeleteClaim(claims, k)) && OnlyClaim(claims, DeleteClaim(claims, k), k)
  {
  }

  /** A sound lease stays sound when its spec is replaced by a complete or an empty one. */
  ghost predicate LeasesEvolve(leases: Leases, leases': Leases, now: int) {
    && leases'.Keys == leases.Keys
    && forall n | n in leases ::
         && leases'[n].name == leases[n].name && leases'[n].labels == leases[n].labels
         && (leases'[n].spec == leases[n].spec || leases'[n].spec == FREE
             || (AllOrNone(leases'[n].spec) && leases'[n].spec.acquireTime.Some?
                 && leases'[n].spec.acquireTime.value <= now))
  }

  lemma EvolvedSound(pool: Pool, leases: Leases, leases': Leases, now: int, now': int)
    requires LeasesSound(pool, leases, now) && now <= now' && LeasesEvolve(leases, leases', now')
    ensures LeasesSound(pool, leases', now')
  {
    hide LeaseLabels, ResourcesOf, FindAccount;
    forall n | n in leases' ensures leases'[n].name == n && LeaseSound(pool, leases'[n], now') {
      assert LeaseSound(pool, leases[n], now);
    }
  }

  lemma ReleaseEvolves(leases: Leases, st: Leases, call: ReleaseCall, now: int)
    requires LeasesEvolve(leases, st, now)
    ensures LeasesEvolve(leases, Release(st, call.read, call.accepted).0, now)
  {
    Leasing.ReleaseEffect(st, call.read, call.accepted);
  }

  lemma BoundSound(names: set<string>, c: Claim, leaseName: string, bind: int, connection: Connection, secret: string)
    requires ClaimSound(names, c) && c.finalizer && leaseName in names && leaseName != ""
    ensures ClaimSound(names, c.(status := BoundStatus(c, leaseName, bind, connection, secret)))
  {
  }

  lemma ProvisionSound(pool: Pool, st: Store, leases: Leases, now: int, k: ClaimKey, c: Claim, name: string,
                       a: Account, clock: Clock, e: AcquireEnv, st': Store)
    requires ClaimsSound(leases.Keys, st.claims) && LeasesEvolve(leases, st.leases, now)
    requires PossibleClaimRead(st.claims, k, c)
    requires c.finalizer && !c.deleting && c.status.phase != Bound
    requires name in leases && name != ""
    requires ProvisionEnd(pool, st, k, c, name, a, clock, e, st')
    ensures ClaimsSound(leases.Keys, st'.claims) && OnlyClaim(st.claims, st'.claims, k)
    ensures LeasesEvolve(leases, st'.leases, now)
  {
    hide AcquireResource, LeasesEvolve;
    ReleaseEvolves(leases, st.leases, e.giveBack, now);
    UnboundPhase(leases.Keys, st.claims, k, c, e.statusOk);
    if IsCurrent(st.claims, k, c) {
      BoundSound(leases.Keys, c, name, clock.bind, ConnectionOf(a), AppSecret(HolderIdentity(k)).name);
    }
    StatusWrite(leases.Keys, st.claims, k, BoundClaim(k, c, name, a, clock), e.statusOk);
  }

  lemma UnboundPhase(names: set<string>, claims: Claims, k: ClaimKey, c: Claim, accepted: bool)
    requires ClaimsSound(names, claims) && PossibleClaimRead(claims, k, c)
    requires !c.deleting && c.finalizer && c.status.phase != Bound
    ensures forall phase | phase == Pending || phase == Failed ::
              var claims' := UpdateStatus(claims, k, WithPhase(c, phase), accepted).0;
              ClaimsSound(names, claims') && OnlyClaim(claims, claims', k)
  {
    StatusWrite(names, claims, k, WithPhase(c, Pending), accepted);
    StatusWrite(names, claims, k, WithPhase(c, Failed), accepted);
  }

  lemma TakeEvolves(leases: Leases, leases': Leases, name: string, holder: string, stamp: int, duration: int, now: int)
    requires name in leases && OtherLeasesSame(leases, leases', name) && stamp <= now
    requires leases'[name].spec == Held(holder, stamp, duration)
    requires leases'[name].name == leases[name].name && leases'[name].labels == leases[name].labels
    ensures LeasesEvolve(leases, leases', now)
  {
    assert StoredMicro(stamp) <= stamp;
  }

  lemma AcquireSound(pool: Pool, st: Store, k: ClaimKey, e: Env, st': Store)
    requires ClaimsSound(st.leases.Keys, st.claims)
    requires e.get.Got? && PossibleClaimRead(st.claims, k, e.get.claim) && e.clock.stamp <= e.clock.bind
    requires var c := e.get.claim; c.spec.typ == PROVIDER && !c.deleting && c.finalizer && c.status.phase != Bound
    requires AcquireEnd(pool, st, k, e, st')
    ensures ClaimsSound(st.leases.Keys, st'.claims) && OnlyClaim(st.claims, st'.claims, k)
    ensures LeasesEvolve(st.leases, st'.leases, e.clock.bind)
  {
    var c := e.get.claim;
    match Taken(pool, st, k, e)
    case None =>
      UnboundPhase(st.leases.Keys, st.claims, k, c, e.acquire.statusOk);
    case Some(name) =>
      var st1 := st.(leases := TakenLeases(st, k, e));
      TakeEvolves(st.leases, st1.leases, name, HolderIdentity(k), e.clock.stamp, DurationOf(c), e.clock.bind);
      ProvisionSound(pool, st1, st.leases, e.clock.bind, k, c, name, AccountFor(pool, st.leases, name).value,
          e.clock, e.acquire, st');
  }

  lemma MarkSound(names: set<string>, claims: Claims, k: ClaimKey, c: Claim, accepted: bool)
    requires ClaimsSound(names, claims) && PossibleClaimRead(claims, k, c)
    requires c.deleting && c.finalizer && c.spec.typ == PROVIDER
    ensures var (claims', held) := MarkClaims(claims, k, c, accepted);
            && ClaimsSound(names, claims') && OnlyClaim(claims, claims', k)
            && held.status == c.status.(phase := Releasing) && held.spec == c.spec && held.deleting && held.finalizer
            && (IsCurrent(claims', k, held) <==> IsCurrent(claims, k, c))
            && (k in claims' <==> k in claims)
            && (k in claims && !IsCurrent(claims, k, c) ==> claims'[k] == claims[k])
            && (IsCurrent(claims, k, c) ==>
                  claims'[k] == claims[k].(gen := claims'[k].gen, status := if accepted then held.status else c.status))
  {
    if IsCurrent(claims, k, c) {
      StatusWrite(names, claims, k, WithPhase(c, Releasing), accepted);
    }
  }

  lemma DeletionSound(pool: Pool, st: Store, k: ClaimKey, c: Claim, now: int, e: DeletionEnv, st': Store)
    requires ClaimsSound(st.leases.Keys, st.claims) && PossibleClaimRead(st.claims, k, c)
    requires c.deleting && c.spec.typ == PROVIDER
    requires DeletionEnd(pool, st, k, c, e, st')
    ensures ClaimsSound(st.leases.Keys, st'.claims) && OnlyClaim(st.claims, st'.claims, k)
    ensures LeasesEvolve(st.leases, st'.leases, now)
  {
    hide ReleaseRecorded, MarkClaims, UpdateFinalizer;
    if c.finalizer {
      MarkSound(st.leases.Keys, st.claims, k, c, e.statusOk);
      var (claims, held) := MarkClaims(st.claims, k, c, e.statusOk);
      FinalizerWrite(st.leases.Keys, claims, k, held.(finalizer := false), e.finalizerOk);
      ReleaseEvolves(st.leases, st.leases, e.release, now);
    }
  }

  /** Unknown types, missing finalizers and bound claims. */
  lemma PlainSound(pool: Pool, st: Store, k: ClaimKey, e: Env, st': Store)
    requires ClaimsSound(st.leases.Keys, st.claims) && e.get.Got? && PossibleClaimRead(st.claims, k, e.get.claim)
    requires var c := e.get.claim; c.spec.typ != PROVIDER || (!c.deleting && (!c.finalizer || c.status.phase == Bound))
    requires ReconcileEnd(pool, st, k, e, st')
    ensures ClaimsSound(st.leases.Keys, st'.claims) && OnlyClaim(st.claims, st'.claims, k) && st'.leases == st.leases
  {
    hide DeletionEnd, AcquireEnd;
    var c := e.get.claim;
    if c.spec.typ != PROVIDER {
      StatusWrite(st.leases.Keys, st.claims, k, WithPhase(c, Failed), e.statusOk);
    } else if !c.finalizer {
      FinalizerWrite(st.leases.Keys, st.claims, k, c.(finalizer := true), e.finalizerOk);
    } else {
      Deletion(st.leases.Keys, st.claims, k);
    }
  }

  lemma ReconcileSound(pool: Pool, st: Store, now: int, k: ClaimKey, e: Env, st': Store)
    requires ClaimsSound(st.leases.Keys, st.claims)
    requires Possible(pool, st, now, k, e) && ReconcileEnd(pool, st, k, e, st')
    ensures ClaimsSound(st.leases.Keys, st'.claims) && OnlyClaim(st.claims, st'.claims, k)
    ensures LeasesEvolve(st.leases, st'.leases, e.clock.bind)
  {
    hide DeletionEnd, AcquireEnd, ClaimsSound;
    if e.get.Got? {
      var c := e.get.claim;
      if c.spec.typ != PROVIDER || (!c.deleting && (!c.finalizer || c.status.phase == Bound)) {
        PlainSound(pool, st, k, e, st');
      } else if c.deleting {
        DeletionSound(pool, st, k, c, e.clock.bind, e.deletion, st');
      } else {
        AcquireSound(pool, st, k, e, st');
      }
    }
  }

  function NameOfLease(pool: Pool, j: nat): string
    requires j < |pool.accounts|
  {
    LeaseName(PROVIDER, pool.accounts[j].name)
  }

  lemma LeaseNameInjective(r: string, s: string)
    ensures LeaseName(PROVIDER, r) == LeaseName(PROVIDER, s) <==> r == s
  {
    SliceUndoesLeaseName(PROVIDER, r);
    SliceUndoesLeaseName(PROVIDER, s);
  }

  lemma NewLeaseSound(pool: Pool, i: nat, now: int)
    requires ValidConfig(pool.accounts) && i < |pool.accounts|
    requires forall j | 0 <= j < i :: pool.accounts[j].name != pool.accounts[i].name
    ensures LeaseSound(pool, NewLease(PROVIDER, ResourcesOf(pool.accounts)[i]), now)
  {
    LabelsOfLease(pool.accounts, i);
    var l := NewLease(PROVIDER, ResourcesOf(pool.accounts)[i]);
    assert LabelledResource(l) == pool.accounts[i].name;
    var found := FindAccount(pool.accounts, pool.accounts[i].name);
    assert found.Some? && !(found.value < i) && !(i < found.value);
  }

  lemma CreateStep(pool: Pool, leases: Leases, i: nat, accepted: bool)
    requires i < |pool.accounts|
    ensures var (leases', ok) := CreateLease(leases, NewLease(PROVIDER, ResourcesOf(pool.accounts)[i]), accepted);
            && (forall n | n in leases :: n in leases' && leases'[n] == leases[n])
            && (forall n | n in leases' && n !in leases ::
                  n == NameOfLease(pool, i) && leases'[n] == NewLease(PROVIDER, ResourcesOf(pool.accounts)[i]))
            && (ok ==> NameOfLease(pool, i) in leases') && (ok <==> accepted)
            && (NameOfLease(pool, i) in leases ==> leases' == leases)
  {
  }

  /** Creation never touches an existing lease, and stops only at a refused creation. */
  lemma {:induction false} InitializeGrows(pool: Pool, leases: Leases, i: nat, creates: seq<bool>)
    requires i <= |pool.accounts|
    ensures var (leases', ok) := Initialize(leases, PROVIDER, ResourcesOf(pool.accounts), i, creates);
            && (forall n | n in leases :: n in leases' && leases'[n] == leases[n])
            && (forall n | n in leases' && n !in leases :: leases'[n].spec == FREE)
            && (ok ==> forall j | i <= j < |pool.accounts| :: NameOfLease(pool, j) in leases')
            && (ok <==> forall j | i <= j < |pool.accounts| :: Accepts(creates, j))
    decreases |pool.accounts| - i
  {
    if i < |pool.accounts| {
      CreateStep(pool, leases, i, Accepts(creates, i));
      var (leases1, ok) := CreateLease(leases, NewLease(PROVIDER, ResourcesOf(pool.accounts)[i]), Accepts(creates, i));
      if ok {
        InitializeGrows(pool, leases1, i + 1, creates);
      }
    }
  }

  /** The creation of account `j`'s lease is reached and accepted. */
  predicate Created(pool: Pool, i: nat, creates: seq<bool>, n: string) {
    exists j | i <= j < |pool.accounts| ::
      n == "resource-lease-snowflake-" + pool.accounts[j].name && forall m | i <= m <= j :: Accepts(creates, m)
  }

  /** Exactly which leases exist after creation: it stops at the first refusal. */
  lemma {:induction false} InitializeExact(pool: Pool, leases: Leases, i: nat, creates: seq<bool>)
    requires i <= |pool.accounts|
    ensures forall n :: n in Initialize(leases, PROVIDER, ResourcesOf(pool.accounts), i, creates).0
                        <==> n in leases || Created(pool, i, creates, n)
    decreases |pool.accounts| - i
  {
    hide LeaseLabels;
    if i < |pool.accounts| {
      CreatedStep(pool, i, creates);
      CreateStep(pool, leases, i, Accepts(creates, i));
      var (leases1, ok) := CreateLease(leases, NewLease(PROVIDER, ResourcesOf(pool.accounts)[i]), Accepts(creates, i));
      if ok {
        InitializeExact(pool, leases1, i + 1, creates);
      }
    }
  }

  lemma CreatedStep(pool: Pool, i: nat, creates: seq<bool>)
    requires i < |pool.accounts|
    ensures forall n :: Created(pool, i, creates, n)
                        <==> Accepts(creates, i) && (n == NameOfLease(pool, i) || Created(pool, i + 1, creates, n))
  {
    assert LEASE_PREFIX + PROVIDER + "-" + pool.accounts[i].name == "resource-lease-snowflake-" + pool.accounts[i].name;
    forall n | Accepts(creates, i) && Created(pool, i + 1, creates, n) ensures Created(pool, i, creates, n) {
      var j :| i + 1 <= j < |pool.accounts| && n == "resource-lease-snowflake-" + pool.accounts[j].name
               && forall m | i + 1 <= m <= j :: Accepts(creates, m);
      assert forall m | i <= m <= j :: Accepts(creates, m);
    }
  }

  lemma {:induction false} InitializeIdle(pool: Pool, leases: Leases, i: nat, creates: seq<bool>)
    requires i <= |pool.accounts|
    requires forall j | i <= j < |pool.accounts| :: NameOfLease(pool, j) in leases
    ensures Initialize(leases, PROVIDER, ResourcesOf(pool.accounts), i, creates).0 == leases
    decreases |pool.accounts| - i
  {
    if i < |pool.accounts| {
      CreateStep(pool, leases, i, Accepts(creates, i));
      if Accepts(creates, i) {
        InitializeIdle(pool, leases, i + 1, creates);
      }
    }
  }

  /** The leases of the first `i` resources exist. */
  ghost predicate CreatedUpTo(pool: Pool, leases: Leases, i: nat)
    requires i <= |pool.accounts|
  {
    forall j | 0 <= j < i :: NameOfLease(pool, j) in leases
  }

  lemma CreateSound(pool: Pool, leases: Leases, i: nat, accepted: bool, now: int)
    requires ValidConfig(pool.accounts) && i < |pool.accounts|
    requires LeasesSound(pool, leases, now) && CreatedUpTo(pool, leases, i)
    ensures var (leases', ok) := CreateLease(leases, NewLease(PROVIDER, ResourcesOf(pool.accounts)[i]), accepted);
            LeasesSound(pool, leases', now) && (ok ==> CreatedUpTo(pool, leases', i + 1))
  {
    hide CreateLease, ValidConfig, LeaseName;
    CreateStep(pool, leases, i, accepted);
    if NameOfLease(pool, i) !in leases {
      forall j | 0 <= j < i ensures pool.accounts[j].name != pool.accounts[i].name {
        assert NameOfLease(pool, j) in leases;
      }
      NewLeaseSound(pool, i, now);
    }
  }

  lemma {:induction false} InitializeSound(pool: Pool, leases: Leases, i: nat, creates: seq<bool>, now: int)
    requires ValidConfig(pool.accounts) && i <= |pool.accounts|
    requires LeasesSound(pool, leases, now) && CreatedUpTo(pool, leases, i)
    ensures var (leases', ok) := Initialize(leases, PROVIDER, ResourcesOf(pool.accounts), i, creates);
            LeasesSound(pool, leases', now) && (ok ==> CreatedUpTo(pool, leases', |pool.accounts|))
    decreases |pool.accounts| - i
  {
    hide LeasesSound, ValidConfig, NewLease;
    if i < |pool.accounts| {
      CreateSound(pool, leases, i, Accepts(creates, i), now);
      var (leases1, ok) := CreateLease(leases, NewLease(PROVIDER, ResourcesOf(pool.accounts)[i]), Accepts(creates, i));
      if ok {
        InitializeSound(pool, leases1, i + 1, creates, now);
      }
    }
  }

  lemma ReleaseAllEvolves(leases: Leases, listed: bool, refused: set<string>, now: int)
    ensures LeasesEvolve(leases, ReleaseAll(leases, listed, refused), now)
  {
  }

  lemma ResetSound(names: set<string>, claims: Claims, listed: bool, refused: set<ClaimKey>)
    requires ClaimsSound(names, claims)
    ensures var claims' := ResetClaims(claims, listed, refused);
            && ClaimsSound(names, claims') && claims'.Keys == claims.Keys
            && forall k | k in claims :: claims'[k].uid == claims[k].uid && claims'[k].spec == claims[k].spec
  {
  }

  lemma CleanupSound(pool: Pool, st: Store, e: StartEnv, now: int)
    requires LeasesSound(pool, st.leases, now) && ClaimsSound(st.leases.Keys, st.claims)
    ensures var st' := Cleanup(pool, st, e);
            && LeasesSound(pool, st'.leases, now) && st'.leases.Keys == st.leases.Keys
            && ClaimsSound(st.leases.Keys, st'.claims) && st'.claims.Keys == st.claims.Keys
            && forall k | k in st.claims ::
                st'.claims[k].uid == st.claims[k].uid && st'.claims[k].spec == st.claims[k].spec
  {
    hide LeasesSound, ClaimsSound, ReleaseAll, ResetClaims, ScrubAccounts;
    ReleaseAllEvolves(st.leases, e.leasesListed, e.leasesRefused, now);
    EvolvedSound(pool, st.leases, ReleaseAll(st.leases, e.leasesListed, e.leasesRefused), now, now);
    ResetSound(st.leases.Keys, st.claims, e.claimsListed, e.claimsRefused);
  }

  lemma StartSound(pool: Pool, st: Store, e: StartEnv, now: int)
    requires ValidConfig(pool.accounts)
    requires LeasesSound(pool, st.leases, now) && ClaimsSound(st.leases.Keys, st.claims)
    ensures var (st', up) := Start(pool, st, e);
            && LeasesSound(pool, st'.leases, now) && st.leases.Keys <= st'.leases.Keys
            && ClaimsSound(st'.leases.Keys, st'.claims) && st'.claims.Keys == st.claims.Keys
            && (forall k | k in st.claims ::
                st'.claims[k].uid == st.claims[k].uid && st'.claims[k].spec == st.claims[k].spec)
            && (up ==> forall j | 0 <= j < |pool.accounts| :: NameOfLease(pool, j) in st'.leases)
  {
    InitializeSound(pool, st.leases, 0, e.creates, now);
    InitializeGrows(pool, st.leases, 0, e.creates);
    var (leases, ok) := Initialize(st.leases, PROVIDER, ResourcesOf(pool.accounts), 0, e.creates);
    assert ClaimsSound(leases.Keys, st.claims);
    CleanupSound(pool, st.(leases := leases), e, now);
  }

  lemma StepSound(pool: Pool, s: State, e: Event)
    requires ValidConfig(pool.accounts) && Sound(pool, s) && Allowed(pool, s, e)
    ensures Sound(pool, Next(pool, s, e))
  {
    var st, s' := s.store, Next(pool, s, e);
    match e
    case Tick(t) => EvolvedSound(pool, st.leases, st.leases, s.now, t);
    case UserCreate(k, spec) =>
    case UserDelete(k) => Deletion(st.leases.Keys, st.claims, k);
    case UserSecret(key, value) =>
    case Reconciled(k, env) => ReconciledSound(pool, s, k, env);
    case Crashed(k, env) => ReconciledSound(pool, s, k, env);
    case Started(start, survives) => StartSound(pool, st, start, s.now);
  }

  lemma ReconciledSound(pool: Pool, s: State, k: ClaimKey, e: Env)
    requires Sound(pool, s) && Possible(pool, s.store, s.now, k, e)
    ensures Sound(pool, Next(pool, s, Reconciled(k, e))) && Sound(pool, Next(pool, s, Crashed(k, e)))
  {
    var st' := Reconcile(pool, s.store, k, e).0;
    ReconcileEnds(pool, s.store, s.now, k, e);
    AfterReconcile(pool, s, k, e, st');
  }

  lemma AfterReconcile(pool: Pool, s: State, k: ClaimKey, e: Env, st': Store)
    requires Sound(pool, s) && Possible(pool, s.store, s.now, k, e) && ReconcileEnd(pool, s.store, k, e, st')
    ensures forall up :: Sound(pool, State(st', Later(e.clock.until, e.clock.bind), s.nextUid, up))
  {
    ReconcileSound(pool, s.store, s.now, k, e, st');
    EvolvedSound(pool, s.store.leases, st'.leases, s.now, Later(e.clock.until, e.clock.bind));
  }

  /** Soundness holds in every state of every run. */
  lemma {:induction false} RunSound(pool: Pool, ss: seq<State>, es: seq<Event>, i: nat)
    requires ValidConfig(pool.accounts) && IsRun(pool, ss, es) && i < |ss|
    ensures Sound(pool, ss[i])
  {
    if i > 0 {
      RunSound(pool, ss, es, i - 1);
      StepSound(pool, ss[i - 1], es[i - 1]);
    }
  }
}
