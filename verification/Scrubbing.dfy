/**
 * Scrubbed before free: a lease without holder stands for an account on which no key can log
 * in and no configured role is granted. Each reconciliation, with any failures and any stale
 * read, and each start keep this if and only if whatever they free has been scrubbed by then,
 * which is decided by the outcomes of their calls; hence so does every run of such steps. An
 * operator that only fails by dying between two calls takes no other steps.
 */
module Scrubbing {
  import opened Wrappers
  import opened Objects
  import opened Names
  import opened Stores
  import opened Accounts
  import Registry
  import opened Conservation
  import opened Leasing
  import opened Snowflake
  import opened Reconciling
  import opened Starting
  import opened Steps
  import opened Runs
  import opened Lifecycle
  import opened Exclusivity
  import opened Credentials

  /** The account that acquisitions of its name work on. */
  predicate Primary(pool: Pool, a: Account) {
    var i := FindAccount(pool.accounts, a.name);
    i.Some? && pool.accounts[i.value] == a
  }

  predicate Idle(st: Store, a: Account) {
    var n := LeaseName(PROVIDER, a.name);
    n in st.leases ==> st.leases[n].spec.holder.None?
  }

  ghost predicate IdleIsScrubbed(pool: Pool, st: Store) {
    forall a | Primary(pool, a) && Idle(st, a) :: Scrubbed(st.users, a)
  }

  lemma LeaseOfAccount(pool: Pool, leases: Leases, now: int, a: Account)
    requires LeasesSound(pool, leases, now) && Primary(pool, a) && LeaseName(PROVIDER, a.name) in leases
    ensures AccountFor(pool, leases, LeaseName(PROVIDER, a.name)) == Some(a)
  {
    var n := LeaseName(PROVIDER, a.name);
    assert LeaseSound(pool, leases[n], now);
    LeaseNameInjective(LabelledResource(leases[n]), a.name);
  }

  lemma SoundAccount(pool: Pool, leases: Leases, now: int, n: string)
    requires LeasesSound(pool, leases, now) && n in leases
    ensures AccountFor(pool, leases, n).Some?
    ensures var a := AccountFor(pool, leases, n).value;
            a in pool.accounts && Primary(pool, a) && n == LeaseName(PROVIDER, a.name)
  {
    assert LeaseSound(pool, leases[n], now);
  }

  /** Every lease without holder stands for an account with empty key slots and none of its configured roles. */
  lemma FreeIsScrubbed(pool: Pool, st: Store, now: int, n: string)
    requires LeasesSound(pool, st.leases, now) && IdleIsScrubbed(pool, st)
    requires n in st.leases && st.leases[n].spec.holder.None?
    ensures AccountFor(pool, st.leases, n).Some? && Scrubbed(st.users, AccountFor(pool, st.leases, n).value)
  {
    SoundAccount(pool, st.leases, now, n);
    assert Idle(st, AccountFor(pool, st.leases, n).value);
  }

  ghost predicate AllScrubbed(pool: Pool, users: Users) {
    forall a | a in pool.accounts :: Scrubbed(users, a)
  }

  lemma ScrubbedElsewhere(users: Users, users': Users, a: Account, url: string)
    requires SameElsewhere(users, users', url) && a.Site() != url && Scrubbed(users, a)
    ensures Scrubbed(users', a)
  {
  }

  lemma ClaimNamespace(k: ClaimKey)
    requires SlashFree(k.ns)
    ensures Text.Before(HolderIdentity(k), '/') == k.ns
  {
    assert HolderIdentity(k) == k.ns + ['/'] + k.name;
    Text.BeforeSeparator(k.ns, k.name, '/');
  }

  /** A faultless acquisition that takes a lease binds its claim and keeps the lease. */
  lemma TakingBinds(pool: Pool, st: Store, k: ClaimKey, c: Claim, name: string, a: Account, clock: Clock,
                    e: AcquireEnv, st': Store)
    requires ValidKey(k) && k in st.claims && c == st.claims[k]
    requires Primary(pool, a) && AcquireAllOk(a, e.provider) && AdminReady(st.secrets, k.ns, a.credentialSecretName)
        && e.statusOk
    requires ProvisionEnd(pool, st, k, c, name, a, clock, e, st')
    ensures st'.leases == st.leases && SameElsewhere(st.users, st'.users, a.Site())
    ensures k in st'.claims && st'.claims[k].status == BoundClaim(k, c, name, a, clock).status
  {
    hide AcquireResource, SameElsewhere, AcquireAllOk, AdminReady;
    ClaimNamespace(k);
    AcquireSucceeds(pool.accounts, st, ResourceOf(a), HolderIdentity(k), e.provider);
    AcquireFrame(pool.accounts, st, ResourceOf(a), HolderIdentity(k), e.provider);
  }

  // Deletions.

  /** The account is scrubbed already, or the provider's cleanup reaches everything there is. */
  ghost predicate CleansFirst(pool: Pool, st: Store, a: Account, calls: ReleaseCalls) {
    || Scrubbed(st.users, a)
    || (Connects(st.secrets, pool.namespace, a.credentialSecretName, calls.adminGet, calls.connect)
        && CleansUp(st.users, a, calls.revokes, calls.clear))
  }

  ghost predicate DeletionScrubsFirst(pool: Pool, st: Store, c: Claim, e: DeletionEnv) {
    var account := AccountFor(pool, st.leases, c.status.leaseName);
    c.finalizer && c.status.leaseName != "" && Lands(st.leases, e.release) && account.Some? ==>
      CleansFirst(pool, st, account.value, e.provider)
  }

  lemma CleaningShrinks(pool: Pool, st: Store, k: ClaimKey, c: Claim, calls: ReleaseCalls)
    ensures Shrinks(st.users, ReleaseRecorded(pool, st, k, c, calls).users)
  {
    hide ReleaseResource, AppSecret, HolderIdentity, ResourceNameOf, AdminReady, AccountFromUrl;
    var name := ResourceNameOf(c.spec.typ, c.status.leaseName);
    var i := Registry.Find(ResourcesOf(pool.accounts), name);
    if name != "" && i.Some? {
      LookupsAgree(pool.accounts, name);
      var r := ResourcesOf(pool.accounts)[i.value];
      Snowflake.ReleaseEffect(pool.accounts, st, pool.namespace, r, HolderIdentity(k), calls);
    }
  }

  /** A deletion adds nothing to any account, and frees the lease the claim records exactly if the release lands. */
  lemma DeletionShrinks(pool: Pool, st: Store, k: ClaimKey, c: Claim, e: DeletionEnv, st': Store)
    requires e.release.read.Some? ==> e.release.read.value.name == c.status.leaseName
    requires PossibleClaimRead(st.claims, k, c) && DeletionEnd(pool, st, k, c, e, st')
    ensures Shrinks(st.users, st'.users)
    ensures var name := c.status.leaseName;
            if c.finalizer && name != "" && Lands(st.leases, e.release)
            then name in st.leases && OtherLeasesSame(st.leases, st'.leases, name) && st'.leases[name].spec == FREE
            else st'.leases == st.leases
  {
    hide ReleaseRecorded, UpdateFinalizer;
    CleaningShrinks(pool, st, k, MarkClaims(st.claims, k, c, e.statusOk).1, e.provider);
    Leasing.ReleaseEffect(st.leases, e.release.read, e.release.accepted);
  }

  lemma CleanedForScrubsIff(pool: Pool, st: Store, st': Store, a: Account, k: ClaimKey, calls: ReleaseCalls)
    requires CleanedFor(pool, st, st', a, k, calls)
    ensures Scrubbed(st'.users, a) <==> CleansFirst(pool, st, a, calls)
  {
    hide Cleaned, AccountFromUrl, Connects, Shrinks, CleansUp, Scrubbed;
    ShrinksKeeps(st.users, st'.users, a);
    if Connects(st.secrets, pool.namespace, a.credentialSecretName, calls.adminGet, calls.connect) {
      CleanedIsScrubbedIff(st.users, st'.users, a, calls.revokes, calls.clear);
    }
  }

  lemma ShrinksKeeps(users: Users, users': Users, a: Account)
    requires Shrinks(users, users')
    ensures users'.Keys == users.Keys && (Scrubbed(users, a) ==> Scrubbed(users', a))
  {
    hide AccountFromUrl;
  }

  /** Whatever fails and however old the read is: a deletion keeps the guarantee iff what it frees is scrubbed. */
  lemma DeletionScrubsIff(pool: Pool, st: Store, now: int, k: ClaimKey, c: Claim, e: DeletionEnv, st': Store)
    requires ValidConfig(pool.accounts) && LeasesSound(pool, st.leases, now) && PossibleClaimRead(st.claims, k, c)
    requires IdleIsScrubbed(pool, st) && c.deleting && c.spec.typ == PROVIDER
    requires e.release.read.Some? ==> e.release.read.value.name == c.status.leaseName
    requires DeletionEnd(pool, st, k, c, e, st')
    ensures IdleIsScrubbed(pool, st') <==> DeletionScrubsFirst(pool, st, c, e)
  {
    hide DeletionEnd, LeasesSound, ValidConfig, Scrubbed, CleanedFor, CleansFirst, Shrinks, IsCurrent, Lands, LeaseName;
    DeletionShrinks(pool, st, k, c, e, st');
    var name := c.status.leaseName;
    if c.finalizer && name != "" && Lands(st.leases, e.release) {
      SoundAccount(pool, st.leases, now, name);
      DeletionDoes(pool, st, now, k, c, e, st');
      var freed := AccountFor(pool, st.leases, name).value;
      CleanedForScrubsIff(pool, st, st', freed, k, e.provider);
      assert Idle(st', freed);
      forall b | Primary(pool, b) && Idle(st', b) && b != freed ensures Scrubbed(st'.users, b) {
        if !Idle(st, b) {
          LeaseOfAccount(pool, st.leases, now, b);
        }
        ShrinkKeepsScrubbed(st.users, st'.users, b);
      }
    } else {
      forall b | Primary(pool, b) && Idle(st', b) ensures Scrubbed(st'.users, b) {
        assert Idle(st, b);
        ShrinkKeepsScrubbed(st.users, st'.users, b);
      }
    }
  }

  // Acquisitions.

  /** The acquisition does not bind its claim, and the release that follows lands. */
  ghost predicate GivesUp(st: Store, k: ClaimKey, e: Env, a: Account)
    requires e.get.Got?
  {
    && !(StoresSecret(st.secrets, HolderIdentity(k), a.credentialSecretName, a, e.acquire.provider)
         && e.acquire.statusOk && IsCurrent(st.claims, k, e.get.claim))
    && Lands(TakenLeases(st, k, e), e.acquire.giveBack)
  }

  /** An acquisition that gives up has left no traces on an account that had none. */
  ghost predicate AcquireScrubsFirst(pool: Pool, st: Store, k: ClaimKey, e: Env, a: Account)
    requires e.get.Got?
  {
    GivesUp(st, k, e, a) ==>
      && Scrubbed(st.users, a)
      && !LeavesTraces(st.secrets, HolderIdentity(k), a.credentialSecretName, a, e.acquire.provider)
  }

  /**
   * After the lease is taken: it is freed exactly if the acquisition gives up, and exactly when the
   * account is scrubbed.
   */
  lemma ProvisionScrubs(pool: Pool, st: Store, k: ClaimKey, c: Claim, name: string, a: Account, clock: Clock,
                        e: AcquireEnv, st': Store)
    requires Primary(pool, a) && name in st.leases && ProvisionEnd(pool, st, k, c, name, a, clock, e, st')
    requires e.giveBack.read.Some? ==> e.giveBack.read.value.name == name
    ensures var stores := StoresSecret(st.secrets, HolderIdentity(k), a.credentialSecretName, a, e.provider);
            if !(stores && e.statusOk && IsCurrent(st.claims, k, c)) && Lands(st.leases, e.giveBack)
            then OtherLeasesSame(st.leases, st'.leases, name) && st'.leases[name].spec == FREE
            else st'.leases == st.leases
    ensures SameElsewhere(st.users, st'.users, a.Site())
    ensures Scrubbed(st'.users, a) <==>
              Scrubbed(st.users, a)
                  && !LeavesTraces(st.secrets, HolderIdentity(k), a.credentialSecretName, a, e.provider)
  {
    hide AcquireResource, SameElsewhere, Scrubbed, StoresSecret, LeavesTraces, SetsKey, AccountFromUrl, HolderIdentity,
        AppSecret;
    AcquireFrame(pool.accounts, st, ResourceOf(a), HolderIdentity(k), e.provider);
    AcquireExact(pool.accounts, st, ResourceOf(a), HolderIdentity(k), e.provider);
    Leasing.ReleaseEffect(st.leases, e.giveBack.read, e.giveBack.accepted);
  }

  /** Whatever fails: an acquisition keeps the guarantee iff it does not give up an account it left traces on. */
  lemma AcquireScrubsIff(pool: Pool, st: Store, now: int, k: ClaimKey, e: Env, st': Store, name: string)
    requires ValidConfig(pool.accounts) && LeasesSound(pool, st.leases, now)
    requires IdleIsScrubbed(pool, st) && e.get.Got?
    requires AcquireEnd(pool, st, k, e, st') && Taken(pool, st, k, e) == Some(name)
    ensures AccountFor(pool, st.leases, name).Some?
    ensures IdleIsScrubbed(pool, st') <==> AcquireScrubsFirst(pool, st, k, e, AccountFor(pool, st.leases, name).value)
  {
    hide ProvisionEnd, LeasesSound, Scrubbed, TakenLeases, Taken, SameElsewhere, LeavesTraces, StoresSecret, Lands,
        LeaseName, HolderIdentity, AccountFromUrl;
    var st1 := st.(leases := TakenLeases(st, k, e));
    SoundAccount(pool, st.leases, now, name);
    var taken := AccountFor(pool, st.leases, name).value;
    ProvisionScrubs(pool, st1, k, e.get.claim, name, taken, e.clock, e.acquire, st');
    forall b | Primary(pool, b) && b != taken
        ensures LeaseName(PROVIDER, b.name) != name && (Idle(st', b) ==> Scrubbed(st'.users, b)) {
      if LeaseName(PROVIDER, b.name) == name {
        LeaseOfAccount(pool, st.leases, now, b);
      }
      LeaseNameInjective(b.name, taken.name);
      if Idle(st', b) {
        assert Idle(st, b);
        assert b in pool.accounts;
        ScrubbedElsewhere(st.users, st'.users, b, taken.Site());
      }
    }
  }

  /** Anything but a deletion and a successful acquisition touches claims only. */
  lemma OtherwiseIdle(pool: Pool, st: Store, k: ClaimKey, e: Env, st': Store)
    requires ReconcileEnd(pool, st, k, e, st') && Taken(pool, st, k, e).None?
    requires e.get.Got? && e.get.claim.deleting ==> e.get.claim.spec.typ != PROVIDER
    ensures st' == st.(claims := st'.claims)
  {
    hide Taken, ProvisionEnd, DeletionEnd;
  }

  // Reconciliations.

  ghost predicate ReconcileScrubsFirst(pool: Pool, st: Store, k: ClaimKey, e: Env) {
    if !e.get.Got? then true
    else if e.get.claim.spec.typ == PROVIDER && e.get.claim.deleting then
      DeletionScrubsFirst(pool, st, e.get.claim, e.deletion)
    else
      var taken := Taken(pool, st, k, e);
      taken.Some? && AccountFor(pool, st.leases, taken.value).Some? ==>
        AcquireScrubsFirst(pool, st, k, e, AccountFor(pool, st.leases, taken.value).value)
  }

  lemma EndScrubsIff(pool: Pool, st: Store, now: int, k: ClaimKey, e: Env, st': Store)
    requires ValidConfig(pool.accounts) && LeasesSound(pool, st.leases, now)
    requires IdleIsScrubbed(pool, st) && Possible(pool, st, now, k, e) && ReconcileEnd(pool, st, k, e, st')
    ensures IdleIsScrubbed(pool, st') <==> ReconcileScrubsFirst(pool, st, k, e)
  {
    hide LeasesSound, ValidConfig, DeletionEnd, AcquireEnd, Scrubbed, DeletionScrubsFirst, AcquireScrubsFirst;
    if e.get.Got? && e.get.claim.spec.typ == PROVIDER && e.get.claim.deleting {
      DeletionScrubsIff(pool, st, now, k, e.get.claim, e.deletion, st');
    } else if Taken(pool, st, k, e).Some? {
      AcquireScrubsIff(pool, st, now, k, e, st', Taken(pool, st, k, e).value);
    } else {
      OtherwiseIdle(pool, st, k, e, st');
      assert forall a :: Idle(st', a) ==> Idle(st, a);
    }
  }

  /**
   * With any failures, any past version of any lease and of the claim: a reconciliation keeps
   * "scrubbed before free" if and only if the account of whatever lease it frees is scrubbed
   * by the calls it made before.
   */
  lemma ReconcileScrubsIff(pool: Pool, st: Store, now: int, k: ClaimKey, e: Env)
    requires ValidConfig(pool.accounts) && LeasesSound(pool, st.leases, now)
    requires IdleIsScrubbed(pool, st) && Possible(pool, st, now, k, e)
    ensures IdleIsScrubbed(pool, Reconcile(pool, st, k, e).0) <==> ReconcileScrubsFirst(pool, st, k, e)
  {
    hide Reconcile, ReconcileEnd, ReconcileScrubsFirst, LeasesSound, ValidConfig;
    ReconcileEnds(pool, st, now, k, e);
    EndScrubsIff(pool, st, now, k, e, Reconcile(pool, st, k, e).0);
  }

  // Starts.

  /** The cleanup loop reaches everything there is on the account. */
  ghost predicate CleanupSuffices(pool: Pool, st: Store, start: StartEnv, a: Account) {
    a.Site() in st.users ==>
      var u, calls := st.users[a.Site()], start.provider.accounts;
      && (u.slot1.None? || SlotCleared(st.secrets, pool.namespace, pool.accounts, 0, calls, a.Site(), 0))
      && (u.slot2.None? || SlotCleared(st.secrets, pool.namespace, pool.accounts, 0, calls, a.Site(), 1))
      && forall role | role in a.appUserRoles && role in u.roles ::
           RoleRevoked(st.secrets, pool.namespace, pool.accounts, 0, calls, a.Site(), role)
  }

  /** The account's lease is held, and the start frees it if it comes that far. */
  predicate FreesAtStart(st: Store, start: StartEnv, a: Account) {
    var n := LeaseName(PROVIDER, a.name);
    n in st.leases && st.leases[n].spec.holder.Some? && n !in start.leasesRefused
  }

  /** If the start comes to release the leases, every account it frees has been scrubbed by the loop before. */
  ghost predicate StartScrubsFirst(pool: Pool, st: Store, start: StartEnv) {
    start.cleanup && start.leasesListed && (forall j | 0 <= j < |pool.accounts| :: Accepts(start.creates, j)) ==>
      forall a | Primary(pool, a) && FreesAtStart(st, start, a) :: CleanupSuffices(pool, st, start, a)
  }

  lemma CleanupScrubsIff(pool: Pool, st: Store, start: StartEnv, a: Account)
    ensures Scrubbed(Cleanup(pool, st, start).users, a) <==> CleanupSuffices(pool, st, start, a)
  {
    hide SlotCleared, RoleRevoked, ScrubAccounts, AccountFromUrl, ReleaseAll, ResetClaims, AppSecretsIn;
    ScrubAccountsEffect(st.secrets, st.users, pool.namespace, pool.accounts, 0, start.provider.accounts);
    if a.Site() in st.users {
      ScrubAccountsExact(st.secrets, st.users, pool.namespace, pool.accounts, 0, start.provider.accounts, a.Site());
    }
  }

  /** What the cleanup does to the lease of one account. */
  lemma CleanupFrees(pool: Pool, st: Store, now: int, start: StartEnv, a: Account)
    requires ValidConfig(pool.accounts) && LeasesSound(pool, st.leases, now)
    ensures Idle(Cleanup(pool, st, start), a) <==> Idle(st, a) || (start.leasesListed && FreesAtStart(st, start, a))
  {
    hide LeasesSound, ValidConfig, Managed, LeaseName, ScrubAccounts, ResetClaims, AppSecretsIn;
    var n := LeaseName(PROVIDER, a.name);
    if n in st.leases {
      SoundIsManaged(pool, st.leases, now, n);
    }
  }

  lemma CleanupKeepsScrubbed(pool: Pool, st: Store, start: StartEnv, a: Account)
    requires Scrubbed(st.users, a)
    ensures Scrubbed(Cleanup(pool, st, start).users, a)
  {
    hide ScrubAccounts, AccountFromUrl, ReleaseAll, ResetClaims, AppSecretsIn;
    ScrubAccountsEffect(st.secrets, st.users, pool.namespace, pool.accounts, 0, start.provider.accounts);
    ShrinkKeepsScrubbed(st.users, Cleanup(pool, st, start).users, a);
  }

  /**
   * With any failures, going down anywhere included: a start keeps "scrubbed before free" if
   * and only if it frees no lease whose account its cleanup loop did not scrub.
   */
  lemma StartScrubsIff(pool: Pool, st: Store, now: int, start: StartEnv)
    requires ValidConfig(pool.accounts) && LeasesSound(pool, st.leases, now) && IdleIsScrubbed(pool, st)
    ensures IdleIsScrubbed(pool, Start(pool, st, start).0) <==> StartScrubsFirst(pool, st, start)
  {
    hide Cleanup, Scrubbed, LeasesSound, ValidConfig, CleanupSuffices, LeaseName;
    InitializeGrows(pool, st.leases, 0, start.creates);
    InitializeSound(pool, st.leases, 0, start.creates, now);
    var (leases, ok) := Initialize(st.leases, PROVIDER, ResourcesOf(pool.accounts), 0, start.creates);
    var st1 := st.(leases := leases);
    assert forall a :: Idle(st1, a) <==> Idle(st, a);
    if ok && start.cleanup {
      var st' := Cleanup(pool, st1, start);
      forall a | Primary(pool, a)
          ensures Idle(st', a) <==> Idle(st, a) || (start.leasesListed && FreesAtStart(st, start, a))
          ensures Scrubbed(st'.users, a) <==> CleanupSuffices(pool, st, start, a)
          ensures Scrubbed(st.users, a) ==> Scrubbed(st'.users, a) {
        CleanupFrees(pool, st1, now, start, a);
        CleanupScrubsIff(pool, st1, start, a);
        SameSuffices(pool, st, st1, start, a);
        if Scrubbed(st.users, a) {
          CleanupKeepsScrubbed(pool, st1, start, a);
        }
      }
    }
  }

  lemma SameSuffices(pool: Pool, st: Store, st1: Store, start: StartEnv, a: Account)
    requires st1.users == st.users && st1.secrets == st.secrets
    ensures CleanupSuffices(pool, st1, start, a) <==> CleanupSuffices(pool, st, start, a)
  {
  }

  // Runs.

  ghost predicate ScrubsFirst(pool: Pool, s: State, e: Event) {
    match e
    case Reconciled(k, env) => ReconcileScrubsFirst(pool, s.store, k, env)
    case Crashed(k, env) => ReconcileScrubsFirst(pool, s.store, k, env)
    case Started(start, survives) => StartScrubsFirst(pool, s.store, start)
    case _ => true
  }

  lemma StepScrubsIff(pool: Pool, s: State, e: Event)
    requires ValidConfig(pool.accounts) && Sound(pool, s) && Allowed(pool, s, e) && IdleIsScrubbed(pool, s.store)
    ensures IdleIsScrubbed(pool, Next(pool, s, e).store) <==> ScrubsFirst(pool, s, e)
  {
    hide Start, Reconcile, ValidConfig, LeasesSound, ClaimsSound, StartScrubsFirst, ReconcileScrubsFirst, Scrubbed;
    match e
    case Reconciled(k, env) => ReconcileScrubsIff(pool, s.store, s.now, k, env);
    case Crashed(k, env) => ReconcileScrubsIff(pool, s.store, s.now, k, env);
    case Started(start, survives) => StartScrubsIff(pool, s.store, s.now, start);
    case _ =>
      assert forall a :: Idle(Next(pool, s, e).store, a) ==> Idle(s.store, a);
  }

  /**
   * Of a run that began with scrubbed accounts: the guarantee holds in all its states if and
   * only if every step scrubs what it frees first.
   */
  lemma {:induction false} RunScrubbedIff(pool: Pool, ss: seq<State>, es: seq<Event>, n: nat)
    requires ValidConfig(pool.accounts) && IsRun(pool, ss, es) && n < |ss| && AllScrubbed(pool, ss[0].store.users)
    ensures (forall i | 0 <= i <= n :: IdleIsScrubbed(pool, ss[i].store))
       <==> (forall m | 0 <= m < n :: ScrubsFirst(pool, ss[m], es[m]))
  {
    hide ScrubsFirst, ValidConfig, Next, Allowed, Sound, IdleIsScrubbed;
    if n == 0 {
      ScrubbedAtFirst(pool, ss[0].store);
    } else {
      RunScrubbedIff(pool, ss, es, n - 1);
      RunSound(pool, ss, es, n - 1);
      assert ss[n - 1 + 1] == Next(pool, ss[n - 1], es[n - 1]);
      if IdleIsScrubbed(pool, ss[n - 1].store) {
        StepScrubsIff(pool, ss[n - 1], es[n - 1]);
        assert IdleIsScrubbed(pool, ss[n].store) <==> ScrubsFirst(pool, ss[n - 1], es[n - 1]);
      }
    }
  }

  lemma ScrubbedAtFirst(pool: Pool, st: Store)
    requires AllScrubbed(pool, st.users)
    ensures IdleIsScrubbed(pool, st)
  {
    assert forall a | Primary(pool, a) :: a in pool.accounts;
  }

  /** In every state of every such run each lease without holder stands for a scrubbed account. */
  lemma RunScrubbed(pool: Pool, ss: seq<State>, es: seq<Event>, i: nat, n: string)
    requires ValidConfig(pool.accounts) && IsRun(pool, ss, es) && i < |ss|
    requires AllScrubbed(pool, ss[0].store.users)
    requires forall m | 0 <= m < i :: ScrubsFirst(pool, ss[m], es[m])
    ensures n in ss[i].store.leases && ss[i].store.leases[n].spec.holder.None? ==>
              AccountFor(pool, ss[i].store.leases, n).Some?
              && Scrubbed(ss[i].store.users, AccountFor(pool, ss[i].store.leases, n).value)
  {
    hide ScrubsFirst, ValidConfig, Next, Allowed, Scrubbed, IdleIsScrubbed, LeasesSound;
    RunScrubbedIff(pool, ss, es, i);
    RunSound(pool, ss, es, i);
    if n in ss[i].store.leases && ss[i].store.leases[n].spec.holder.None? {
      FreeIsScrubbed(pool, ss[i].store, ss[i].now, n);
    }
  }

  // An operator that fails only by dying.

  ghost predicate AdminEverywhere(pool: Pool, st: Store, ns: string) {
    forall a | a in pool.accounts :: AdminReady(st.secrets, ns, a.credentialSecretName)
  }

  /**
   * The operator dies between two calls at most: the release of a lease is accepted only if
   * every call before it was. In a deletion those are the provider's; in an acquisition the
   * release follows a refusal, so it is accepted only where it is not reached.
   */
  ghost predicate FreesLast(pool: Pool, st: Store, k: ClaimKey, e: Env) {
    && (e.deletion.release.accepted ==>
          && AdminEverywhere(pool, st, pool.namespace)
          && forall a | a in pool.accounts :: ReleaseAllOk(a, e.deletion.provider))
    && (Taken(pool, st, k, e).Some? && e.acquire.giveBack.accepted ==>
          CurrentRead(st, k, e) && e.acquire.statusOk && AdminEverywhere(pool, st, k.ns)
          && forall a | a in pool.accounts :: AcquireAllOk(a, e.acquire.provider))
  }

  ghost predicate CleanupReachesAll(pool: Pool, st: Store, start: StartEnv) {
    && start.cleanup
    && forall i | 0 <= i < |pool.accounts| ::
         && ScrubAllOk(pool.accounts[i], CallsAt(start.provider.accounts, i))
         && AdminReady(st.secrets, pool.namespace, pool.accounts[i].credentialSecretName)
  }

  /** Such a reconciliation and such a start always scrub first. */
  lemma DyingScrubsFirst(pool: Pool, st: Store, now: int, k: ClaimKey, e: Env)
    requires LeasesSound(pool, st.leases, now) && ValidKey(k) && FreesLast(pool, st, k, e)
    ensures ReconcileScrubsFirst(pool, st, k, e)
  {
    hide Taken, TakenLeases, LeasesSound, AdminReady, Scrubbed, HolderIdentity, Text.Before, AccountFromUrl, LeaseName;
    if e.get.Got? {
      var c := e.get.claim;
      if c.spec.typ == PROVIDER && c.deleting {
        if c.status.leaseName in st.leases && Lands(st.leases, e.deletion.release) {
          SoundAccount(pool, st.leases, now, c.status.leaseName);
          AllOkCleansUp(st.users, AccountFor(pool, st.leases, c.status.leaseName).value, e.deletion.provider);
        }
      } else if Taken(pool, st, k, e).Some? && Taken(pool, st, k, e).value in st.leases {
        SoundAccount(pool, st.leases, now, Taken(pool, st, k, e).value);
        ClaimNamespace(k);
      }
    }
  }

  lemma AllOkCleansUp(users: Users, a: Account, calls: ReleaseCalls)
    requires ReleaseAllOk(a, calls)
    ensures CleansUp(users, a, calls.revokes, calls.clear)
  {
    forall role | role in a.appUserRoles ensures Revoked(a.appUserRoles, 0, calls.revokes, role) {
      var j :| 0 <= j < |a.appUserRoles| && a.appUserRoles[j] == role;
    }
  }

  lemma DyingStartScrubsFirst(pool: Pool, st: Store, start: StartEnv)
    requires start.cleanup && start.leasesListed ==> CleanupReachesAll(pool, st, start)
    ensures StartScrubsFirst(pool, st, start)
  {
    hide ScrubAccounts, AdminReady, AccountFromUrl, LeaseName, Cleanup;
    if start.cleanup && start.leasesListed {
      forall a | Primary(pool, a) ensures CleanupSuffices(pool, st, start, a) {
        var i := FindAccount(pool.accounts, a.name).value;
        var c := CallsAt(start.provider.accounts, i);
        assert ClearsSlot(st.secrets, pool.namespace, pool.accounts[i], c, a.Site(), 0);
        assert ClearsSlot(st.secrets, pool.namespace, pool.accounts[i], c, a.Site(), 1);
        forall role | role in a.appUserRoles
            ensures RoleRevoked(st.secrets, pool.namespace, pool.accounts, 0, start.provider.accounts, a.Site(), role) {
          var j :| 0 <= j < |a.appUserRoles| && a.appUserRoles[j] == role;
          assert Revoked(a.appUserRoles, 0, c.revokes, role);
          assert RevokesRole(st.secrets, pool.namespace, pool.accounts[i], c, a.Site(), role);
        }
      }
    }
  }

  ghost predicate Orderly(pool: Pool, s: State, e: Event) {
    match e
    case Reconciled(k, env) => FreesLast(pool, s.store, k, env)
    case Crashed(k, env) => FreesLast(pool, s.store, k, env)
    case Started(start, survives) =>
      start.cleanup && start.leasesListed ==> CleanupReachesAll(pool, s.store, start)
    case _ => true
  }

  /** Hence an operator that fails only by dying keeps the guarantee, wherever it dies. */
  lemma OrderlyScrubsFirst(pool: Pool, s: State, e: Event)
    requires Sound(pool, s) && Allowed(pool, s, e) && Orderly(pool, s, e)
    ensures ScrubsFirst(pool, s, e)
  {
    hide LeasesSound, ClaimsSound, ReconcileScrubsFirst, StartScrubsFirst, FreesLast, CleanupReachesAll;
    match e
    case Reconciled(k, env) => DyingScrubsFirst(pool, s.store, s.now, k, env);
    case Crashed(k, env) => DyingScrubsFirst(pool, s.store, s.now, k, env);
    case Started(start, survives) => DyingStartScrubsFirst(pool, s.store, start);
    case _ =>
  }
}
