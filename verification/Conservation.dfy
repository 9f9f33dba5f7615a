/**
 * Pool conservation. On every disciplined run in which a lease that is given back after a
 * failed acquisition really is released, the held leases and the claims that record one are
 * in bijection between reconciliations while the operator is up.
 */
module Conservation {
  import opened Wrappers
  import opened Objects
  import opened Names
  import opened LeaseRules
  import opened Stores
  import opened Accounts
  import opened Leasing
  import opened Snowflake
  import opened Reconciling
  import opened Starting
  import opened Steps
  import opened Runs
  import opened Lifecycle
  import opened Exclusivity

  /** Every held lease is recorded by the claim it names as holder. */
  ghost predicate NoLeak(st: Store) {
    forall n | n in st.leases && st.leases[n].spec.holder.Some? :: exists k :: Records(st, k, n) && Holds(st, k, n)
  }

  /** The acquisition stores the claim's Secret and its status write is accepted. */
  predicate Binds(st: Store, k: ClaimKey, a: Account, e: AcquireEnv) {
    StoresSecret(st.secrets, HolderIdentity(k), a.credentialSecretName, a, e.provider) && e.statusOk
  }

  /** If the acquisition takes a lease, it binds the claim or the release that follows lands. */
  predicate GivesBack(pool: Pool, st: Store, k: ClaimKey, e: Env) {
    var taken := Taken(pool, st, k, e);
    taken.Some? && AccountFor(pool, st.leases, taken.value).Some? && e.get.Got? ==>
      || Binds(st, k, AccountFor(pool, st.leases, taken.value).value, e.acquire)
      || Lands(TakenLeases(st, k, e), e.acquire.giveBack)
  }

  ghost predicate Conserving(pool: Pool, s: State, e: Event) {
    Disciplined(pool, s, e) && (e.Reconciled? ==> GivesBack(pool, s.store, e.k, e.env))
  }

  lemma ProvisionConserves(pool: Pool, st: Store, k: ClaimKey, c: Claim, name: string, a: Account, clock: Clock,
                           e: AcquireEnv, st': Store)
    requires k in st.claims && c == st.claims[k] && c.status.leaseName == "" && c.status.phase != Bound
    requires name in st.leases && name != "" && AccountFor(pool, st.leases, name) == Some(a)
    requires e.giveBack.read.Some? ==> e.giveBack.read.value.name == name
    requires ProvisionEnd(pool, st, k, c, name, a, clock, e, st')
    ensures k in st'.claims && name in st'.leases
    ensures st'.claims[k].status.leaseName == name <==> Binds(st, k, a, e)
    ensures !Binds(st, k, a, e) ==> st'.leases[name].spec == if Lands(st.leases, e.giveBack) then FREE
        else st.leases[name].spec
  {
    hide AcquireResource, StoresSecret, HolderIdentity, AppSecret, AccountFromUrl, AccountIdentifier;
    assert AccountOf(pool.accounts, ResourceOf(a)) == a;
    AcquireExact(pool.accounts, st, ResourceOf(a), HolderIdentity(k), e.provider);
    Leasing.ReleaseEffect(st.leases, e.giveBack.read, e.giveBack.accepted);
    var stored := AcquireResource(pool.accounts, st, ResourceOf(a), HolderIdentity(k), e.provider).1.Some?;
    assert stored <==> StoresSecret(st.secrets, HolderIdentity(k), a.credentialSecretName, a, e.provider);
    if stored && e.statusOk {
      assert st'.claims[k].status == BoundClaim(k, c, name, a, clock).status;
      assert st'.claims[k].status.leaseName == name;
    } else {
      assert st'.claims[k].status.leaseName == "";
    }
  }

  /**
   * Whatever fails in provisioning or binding, a taking reconciliation leaves no hold behind iff it
   * binds its claim or gives the lease back.
   */
  lemma TakingConservesIff(pool: Pool, st: Store, k: ClaimKey, e: Env, st': Store, name: string)
    requires ClaimsSound(st.leases.Keys, st.claims) && NoLeak(st) && e.get.Got? && CurrentRead(st, k, e)
    requires var c := e.get.claim; c.spec.typ == PROVIDER && !c.deleting && c.finalizer && c.status.phase != Bound
    requires AcquireEnd(pool, st, k, e, st') && Taken(pool, st, k, e) == Some(name)
    ensures NoLeak(st') <==> GivesBack(pool, st, k, e)
  {
    hide ProvisionEnd, Taken, TakenLeases, Binds, Lands, HolderIdentity;
    var c := e.get.claim;
    assert c.status.leaseName == "";
    AcquireLeaves(pool, st, k, e, st');
    var st1, a := st.(leases := TakenLeases(st, k, e)), AccountFor(pool, st.leases, name).value;
    SameAccount(pool, st, st1, name);
    ProvisionConserves(pool, st1, k, c, name, a, e.clock, e.acquire, st');
    BindsSame(st, st1, k, a, e.acquire);
    if GivesBack(pool, st, k, e) {
      forall n | n in st'.leases && st'.leases[n].spec.holder.Some?
          ensures exists j :: Records(st', j, n) && Holds(st', j, n) {
        if n == name {
          assert Records(st', k, n) && Holds(st', k, n);
        } else {
          var j :| Records(st, j, n) && Holds(st, j, n);
          assert Records(st', j, n) && Holds(st', j, n);
        }
      }
    } else {
      assert Holds(st', k, name) && !Records(st', k, name);
      forall j | Records(st', j, name) ensures !Holds(st', j, name) {
        HolderIdentityInjective(j, k);
      }
    }
  }

  lemma SameAccount(pool: Pool, st: Store, st1: Store, name: string)
    requires name in st.leases && name in st1.leases && st1.leases[name].labels == st.leases[name].labels
    ensures AccountFor(pool, st1.leases, name) == AccountFor(pool, st.leases, name)
  {
  }

  lemma BindsSame(st: Store, st1: Store, k: ClaimKey, a: Account, e: AcquireEnv)
    requires st1.secrets == st.secrets
    ensures Binds(st1, k, a, e) <==> Binds(st, k, a, e)
  {
  }

  lemma DeletionConserves(pool: Pool, st: Store, k: ClaimKey, c: Claim, e: DeletionEnv, st': Store)
    requires ClaimsSound(st.leases.Keys, st.claims) && NoLeak(st) && k in st.claims && c == st.claims[k]
    requires c.deleting && c.spec.typ == PROVIDER
    requires e.release.read.Some? ==> e.release.read.value.name == c.status.leaseName
    requires DeletionEnd(pool, st, k, c, e, st')
    ensures NoLeak(st')
  {
    hide DeletionEnd, ClaimsSound, Release;
    DeletionLeaves(pool, st, k, c, e, st');
    forall n | n in st'.leases && st'.leases[n].spec.holder.Some?
        ensures exists j :: Records(st', j, n) && Holds(st', j, n) {
      var j :| Records(st, j, n) && Holds(st, j, n);
      assert Records(st', j, n) && Holds(st', j, n);
    }
  }

  /** A step that leaves the leases alone and drops no record. */
  lemma QuietConserves(st: Store, st': Store)
    requires NoLeak(st) && st'.leases == st.leases
    requires forall j, n | Records(st, j, n) :: Records(st', j, n)
    ensures NoLeak(st')
  {
    forall n | n in st'.leases && st'.leases[n].spec.holder.Some?
        ensures exists j :: Records(st', j, n) && Holds(st', j, n) {
      var j :| Records(st, j, n) && Holds(st, j, n);
      assert Records(st', j, n) && Holds(st', j, n);
    }
  }

  lemma OtherwiseConserves(pool: Pool, st: Store, k: ClaimKey, e: Env, st': Store)
    requires ClaimsSound(st.leases.Keys, st.claims) && NoLeak(st)
    requires CurrentRead(st, k, e) && ReconcileEnd(pool, st, k, e, st')
    requires Taken(pool, st, k, e).None?
    requires e.get.Got? && e.get.claim.deleting ==> e.get.claim.spec.typ != PROVIDER
    ensures NoLeak(st')
  {
    hide Taken, ProvisionEnd, DeletionEnd, NoLeak, WithPhase;
    forall j, n | Records(st, j, n) ensures Records(st', j, n) {
      assert ClaimSound(st.leases.Keys, st.claims[j]);
    }
    QuietConserves(st, st');
  }

  lemma EndConservesIff(pool: Pool, st: Store, now: int, k: ClaimKey, e: Env, st': Store)
    requires ClaimsSound(st.leases.Keys, st.claims) && NoLeak(st)
    requires Possible(pool, st, now, k, e) && CurrentRead(st, k, e) && ReconcileEnd(pool, st, k, e, st')
    ensures NoLeak(st') <==> GivesBack(pool, st, k, e)
  {
    hide ClaimsSound, NoLeak, DeletionEnd, AcquireEnd, Binds, Lands;
    if e.get.Got? && e.get.claim.spec.typ == PROVIDER && e.get.claim.deleting {
      DeletionConserves(pool, st, k, e.get.claim, e.deletion, st');
    } else if Taken(pool, st, k, e).Some? {
      TakingConservesIff(pool, st, k, e, st', Taken(pool, st, k, e).value);
    } else {
      OtherwiseConserves(pool, st, k, e, st');
    }
  }

  /**
   * Whatever fails, a reconciliation of the current claim leaves no hold behind iff it binds or
   * gives back the lease it takes, if any.
   */
  lemma ReconcileConservesIff(pool: Pool, st: Store, now: int, k: ClaimKey, e: Env)
    requires LeasesSound(pool, st.leases, now) && ClaimsSound(st.leases.Keys, st.claims) && NoLeak(st)
    requires Possible(pool, st, now, k, e) && CurrentRead(st, k, e)
    ensures NoLeak(Reconcile(pool, st, k, e).0) <==> GivesBack(pool, st, k, e)
  {
    hide Reconcile, ReconcileEnd, GivesBack, NoLeak, LeasesSound, ClaimsSound;
    ReconcileEnds(pool, st, now, k, e);
    EndConservesIff(pool, st, now, k, e, Reconcile(pool, st, k, e).0);
  }

  /** A clean start frees every lease of the pool. */
  lemma CleanStartFrees(pool: Pool, st: Store, start: StartEnv, now: int)
    requires ValidConfig(pool.accounts) && LeasesSound(pool, st.leases, now) && CleanStart(start)
    ensures var (st', ok) := Start(pool, st, start); ok ==> forall n | n in st'.leases :: st'.leases[n].spec == FREE
  {
    hide LeasesSound, ValidConfig, Managed, ResetClaims, ScrubAccounts, AppSecretsIn;
    InitializeSound(pool, st.leases, 0, start.creates, now);
    var (leases, ok) := Initialize(st.leases, PROVIDER, ResourcesOf(pool.accounts), 0, start.creates);
    if ok {
      forall n | n in leases ensures ReleaseAll(leases, true, {})[n].spec == FREE {
        SoundIsManaged(pool, leases, now, n);
      }
    }
  }

  lemma SoundIsManaged(pool: Pool, leases: Leases, now: int, n: string)
    requires ValidConfig(pool.accounts) && LeasesSound(pool, leases, now) && n in leases
    ensures Managed(leases[n]) && Includes(leases[n].labels, ProviderSelector(PROVIDER))
    ensures leases[n].spec.holder.None? ==> leases[n].spec == FREE
  {
    hide LeaseName, ValidConfig;
    assert LeaseSound(pool, leases[n], now);
    LabelsOfLease(pool.accounts, AccountIndex(pool, leases[n]).value);
  }

  lemma StepConserves(pool: Pool, s: State, e: Event)
    requires ValidConfig(pool.accounts) && Sound(pool, s) && Allowed(pool, s, e) && Conserving(pool, s, e)
    requires s.up ==> NoLeak(s.store)
    ensures var s' := Next(pool, s, e); s'.up ==> NoLeak(s'.store)
  {
    hide Start, ValidConfig, LeasesSound, NoLeak, CleanStart;
    match e
    case Reconciled(k, env) =>
      ReconcileConservesIff(pool, s.store, s.now, k, env);
    case Started(start, survives) =>
      if survives {
        CleanStartFrees(pool, s.store, start, s.now);
        if Start(pool, s.store, start).1 {
          NothingHeld(Start(pool, s.store, start).0);
        }
      }
    case Crashed(k, env) =>
    case _ =>
      if s.up {
        UserStepRecords(pool, s, e);
        QuietConserves(s.store, Next(pool, s, e).store);
      }
  }

  lemma NothingHeld(st: Store)
    requires forall n | n in st.leases :: st.leases[n].spec == FREE
    ensures NoLeak(st)
  {
  }

  lemma UserStepRecords(pool: Pool, s: State, e: Event)
    requires Sound(pool, s) && Allowed(pool, s, e) && (e.Tick? || e.UserCreate? || e.UserDelete? || e.UserSecret?)
    ensures forall j, n | Records(s.store, j, n) :: Records(Next(pool, s, e).store, j, n)
  {
    hide LeasesSound;
    forall j, n | Records(s.store, j, n) ensures Records(Next(pool, s, e).store, j, n) {
      assert ClaimSound(s.store.leases.Keys, s.store.claims[j]);
    }
  }

  /** The names of the pool's leases. */
  function PoolNames(pool: Pool): set<string> {
    set i | 0 <= i < |pool.accounts| :: LeaseName(PROVIDER, pool.accounts[i].name)
  }

  lemma SoundNames(pool: Pool, leases: Leases, now: int)
    requires LeasesSound(pool, leases, now)
    ensures leases.Keys <= PoolNames(pool)
  {
    forall n | n in leases ensures n in PoolNames(pool) {
      assert LeaseSound(pool, leases[n], now);
      var i := AccountIndex(pool, leases[n]).value;
      assert n == LeaseName(PROVIDER, pool.accounts[i].name);
    }
  }

  ghost predicate Complete(pool: Pool, s: State) {
    s.up ==> CreatedUpTo(pool, s.store.leases, |pool.accounts|)
  }

  lemma StepComplete(pool: Pool, s: State, e: Event)
    requires ValidConfig(pool.accounts) && Sound(pool, s) && Allowed(pool, s, e) && Complete(pool, s)
    ensures Complete(pool, Next(pool, s, e))
  {
    hide Start, ValidConfig, LeasesSound;
    match e
    case Reconciled(k, env) =>
      ReconcileEnds(pool, s.store, s.now, k, env);
      ReconcileSound(pool, s.store, s.now, k, env, Reconcile(pool, s.store, k, env).0);
    case Started(start, survives) => StartSound(pool, s.store, start, s.now);
    case Crashed(k, env) =>
    case _ =>
  }

  function HeldLeases(st: Store): set<string> {
    set n | n in st.leases && st.leases[n].spec.holder.Some?
  }

  function FreeLeases(st: Store): set<string> {
    set n | n in st.leases && st.leases[n].spec.holder.None?
  }

  function RecordingClaims(st: Store): set<ClaimKey> {
    set k | k in st.claims && st.claims[k].status.leaseName != ""
  }

  /** Sets in bijection have the same size. */
  lemma {:induction false} BijectionSize(a: set<ClaimKey>, b: set<string>, f: map<ClaimKey, string>)
    requires a <= f.Keys && forall k | k in a :: f[k] in b
    requires forall j, k | j in a && k in a && f[j] == f[k] :: j == k
    requires forall n | n in b :: exists k :: k in a && f[k] == n
    ensures |a| == |b|
    decreases |a|
  {
    if a == {} {
      assert b == {};
    } else {
      var k :| k in a;
      var a', b' := a - {k}, b - {f[k]};
      forall n | n in b' ensures exists j :: j in a' && f[j] == n {
        var j :| j in a && f[j] == n;
        assert j in a';
      }
      BijectionSize(a', b', f);
    }
  }

  lemma NamesAreThePool(pool: Pool, leases: Leases, now: int)
    requires LeasesSound(pool, leases, now) && CreatedUpTo(pool, leases, |pool.accounts|)
    ensures leases.Keys == PoolNames(pool)
  {
    SoundNames(pool, leases, now);
    forall n | n in PoolNames(pool) ensures n in leases {
      var i :| 0 <= i < |pool.accounts| && n == LeaseName(PROVIDER, pool.accounts[i].name);
      assert NameOfLease(pool, i) in leases;
    }
  }

  /** Free leases and recording claims add up to the pool. */
  lemma Balance(pool: Pool, s: State)
    requires Sound(pool, s) && Exclusive(s.store) && NoLeak(s.store)
        && CreatedUpTo(pool, s.store.leases, |pool.accounts|)
    ensures |FreeLeases(s.store)| + |RecordingClaims(s.store)| == |PoolNames(pool)|
  {
    hide LeasesSound, PoolNames, NoLeak, Exclusive, ClaimsSound;
    var st := s.store;
    NamesAreThePool(pool, st.leases, s.now);
    assert FreeLeases(st) + HeldLeases(st) == st.leases.Keys && FreeLeases(st) !! HeldLeases(st);
    RecordingAreHolders(st);
  }

  /** No lease names a holder that does not record it, so none names a claim that is gone. */
  lemma NoOrphanHold(st: Store, k: ClaimKey, n: string)
    requires ClaimsSound(st.leases.Keys, st.claims) && NoLeak(st) && ValidKey(k) && Holds(st, k, n)
    ensures Records(st, k, n)
  {
    var j :| Records(st, j, n) && Holds(st, j, n);
    HolderIdentityInjective(j, k);
  }

  lemma RecordingAreHolders(st: Store)
    requires ClaimsSound(st.leases.Keys, st.claims) && Exclusive(st) && NoLeak(st)
    ensures |RecordingClaims(st)| == |HeldLeases(st)|
  {
    var f := map k | k in RecordingClaims(st) :: st.claims[k].status.leaseName;
    forall j, k | j in RecordingClaims(st) && k in RecordingClaims(st) && f[j] == f[k] ensures j == k {
      assert Records(st, j, f[j]) && Records(st, k, f[j]);
      ExclusiveMeansUnshared(st, j, k, f[j]);
    }
    forall k | k in RecordingClaims(st) ensures f[k] in HeldLeases(st) {
      assert Records(st, k, f[k]) && Holds(st, k, f[k]);
    }
    forall n | n in HeldLeases(st) ensures exists k :: k in RecordingClaims(st) && f[k] == n {
      var k :| Records(st, k, n) && Holds(st, k, n);
      assert k in RecordingClaims(st) && f[k] == n;
    }
    BijectionSize(RecordingClaims(st), HeldLeases(st), f);
  }

  ghost predicate IsConservingRun(pool: Pool, ss: seq<State>, es: seq<Event>) {
    IsRun(pool, ss, es) && forall m | 0 <= m < |es| :: Conserving(pool, ss[m], es[m])
  }

  lemma {:induction false} RunKeeps(pool: Pool, ss: seq<State>, es: seq<Event>, i: nat)
    requires ValidConfig(pool.accounts) && IsConservingRun(pool, ss, es) && i < |ss|
    ensures Complete(pool, ss[i]) && (ss[i].up ==> Exclusive(ss[i].store) && NoLeak(ss[i].store))
  {
    if i > 0 {
      RunKeeps(pool, ss, es, i - 1);
      RunSound(pool, ss, es, i - 1);
      StepExclusive(pool, ss[i - 1], es[i - 1]);
      StepConserves(pool, ss[i - 1], es[i - 1]);
      StepComplete(pool, ss[i - 1], es[i - 1]);
    }
  }

  /** Conservation over every conserving run: nothing is held for a claim that is gone, and the sum never changes. */
  lemma RunConserved(pool: Pool, ss: seq<State>, es: seq<Event>, i: nat)
    requires ValidConfig(pool.accounts) && IsConservingRun(pool, ss, es) && i < |ss| && ss[i].up
    ensures |FreeLeases(ss[i].store)| + |RecordingClaims(ss[i].store)| == |PoolNames(pool)|
    ensures forall k, n | ValidKey(k) && Holds(ss[i].store, k, n) :: Records(ss[i].store, k, n)
  {
    RunKeeps(pool, ss, es, i);
    RunSound(pool, ss, es, i);
    Balance(pool, ss[i]);
    forall k, n | ValidKey(k) && Holds(ss[i].store, k, n) ensures Records(ss[i].store, k, n) {
      NoOrphanHold(ss[i].store, k, n);
    }
  }
}
