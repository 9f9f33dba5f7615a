/**
 * Startup recovery. Whatever state a crash left, a start whose calls succeed re-establishes
 * every invariant of the pool, and starting again changes nothing, whatever fails then.
 */
module Recovery {
  import opened Wrappers
  import opened Objects
  import opened Names
  import opened Stores
  import opened Accounts
  import opened Leasing
  import opened Snowflake
  import opened Reconciling
  import opened Starting
  import opened Steps
  import opened Runs
  import opened Lifecycle
  import opened Exclusivity
  import opened Credentials
  import opened Scrubbing
  import opened Conservation

  /** No call of the start fails. */
  ghost predicate Successful(pool: Pool, st: Store, start: StartEnv) {
    && CleanStart(start) && CleanupReachesAll(pool, st, start)
    && start.provider.secretList && start.provider.secretRefused == {}
    && forall j | 0 <= j < |pool.accounts| :: Accepts(start.creates, j)
  }

  /** The claim holds nothing and offers nothing. */
  predicate Unbound(c: Claim) {
    && c.status.phase != Bound && c.status.phase != Releasing && c.status.leaseName == ""
    && c.status.acquiredAt.None? && c.status.expiresAt.None?
    && c.status.connection.None? && c.status.credentialSecret.None?
  }

  /** A pool at rest: nothing held, nothing bound, nothing left on any account. */
  ghost predicate Rested(pool: Pool, st: Store) {
    && st.leases.Keys == PoolNames(pool) && (forall n | n in st.leases :: st.leases[n].spec == FREE)
    && (forall k | k in st.claims :: Unbound(st.claims[k]))
    && AllScrubbed(pool, st.users)
    && AppSecretsIn(st.secrets, pool.namespace) == {}
  }

  lemma CleanupRests(pool: Pool, st: Store, start: StartEnv, now: int)
    requires ValidConfig(pool.accounts) && LeasesSound(pool, st.leases, now) && ClaimsSound(st.leases.Keys, st.claims)
    requires CreatedUpTo(pool, st.leases, |pool.accounts|) && Successful(pool, st, start)
    ensures Rested(pool, Cleanup(pool, st, start))
  {
    hide LeasesSound, ValidConfig, Managed, PoolNames, ScrubAllOk, AdminReady, AccountFromUrl, DeadlineRecorded;
    NamesAreThePool(pool, st.leases, now);
    ScrubAccountsEffect(st.secrets, st.users, pool.namespace, pool.accounts, 0, start.provider.accounts);
    var st' := Cleanup(pool, st, start);
    forall a | a in pool.accounts ensures Scrubbed(st'.users, a) {
      var i :| 0 <= i < |pool.accounts| && pool.accounts[i] == a;
    }
    forall n | n in st'.leases ensures st'.leases[n].spec == FREE {
      SoundIsManaged(pool, st.leases, now, n);
    }
    forall k | k in st'.claims ensures Unbound(st'.claims[k]) {
      assert ClaimSound(st.leases.Keys, st.claims[k]);
    }
  }

  /**
   * From any state a run can reach, however it crashed: the operator comes up with the pool
   * at rest, which satisfies exclusivity, conservation, credential agreement and scrubbing.
   */
  lemma StartRecovers(pool: Pool, s: State, start: StartEnv)
    requires ValidConfig(pool.accounts) && Sound(pool, s) && Successful(pool, s.store, start)
    ensures var (st', up) := Start(pool, s.store, start);
            up && Rested(pool, st') && Exclusive(st') && NoLeak(st') && Credentialed(pool, st')
                && IdleIsScrubbed(pool, st')
  {
    hide LeasesSound, Cleanup, ValidConfig, PoolNames, ScrubAllOk, AdminReady;
    InitializeSound(pool, s.store.leases, 0, start.creates, s.now);
    InitializeGrows(pool, s.store.leases, 0, start.creates);
    var leases := Initialize(s.store.leases, PROVIDER, ResourcesOf(pool.accounts), 0, start.creates).0;
    CleanupRests(pool, s.store.(leases := leases), start, s.now);
    RestedIsSafe(pool, Cleanup(pool, s.store.(leases := leases), start));
  }

  lemma RestedIsSafe(pool: Pool, st: Store)
    requires Rested(pool, st)
    ensures Exclusive(st) && NoLeak(st) && Credentialed(pool, st) && IdleIsScrubbed(pool, st)
  {
    assert forall a | Primary(pool, a) :: a in pool.accounts;
  }

  lemma {:induction false} RevokeIdle(users: Users, url: string, roles: seq<string>, i: nat, revokes: seq<bool>)
    requires i <= |roles|
    requires url in users ==> forall j | i <= j < |roles| :: roles[j] !in users[url].roles
    ensures RevokeRoles(users, url, roles, i, revokes) == users
    decreases |roles| - i
  {
    if i < |roles| {
      assert RevokeRole(users, url, roles[i], Accepts(revokes, i)) == users by {
        if url in users {
          assert users[url].roles - {roles[i]} == users[url].roles;
        }
      }
      RevokeIdle(users, url, roles, i + 1, revokes);
    }
  }

  lemma {:induction false} ScrubIdle(secrets: Secrets, users: Users, ns: string, accounts: seq<Account>, i: nat,
                                     calls: seq<ScrubCalls>)
    requires i <= |accounts| && forall j | i <= j < |accounts| :: Scrubbed(users, accounts[j])
    ensures ScrubAccounts(secrets, users, ns, accounts, i, calls) == users
    decreases |accounts| - i
  {
    hide Account.Site;
    if i < |accounts| {
      var a, c := accounts[i], CallsAt(calls, i);
      RevokeIdle(users, a.Site(), a.appUserRoles, 0, c.revokes);
      assert ClearSlot(users, a.Site(), 1, Accepts(c.clear, 0)) == users;
      assert ClearPublicKeys(users, a.Site(), c.clear) == users;
      ScrubIdle(secrets, users, ns, accounts, i + 1, calls);
    }
  }

  lemma CleanupIdle(pool: Pool, st: Store, start: StartEnv)
    requires Rested(pool, st)
    ensures Cleanup(pool, st, start) == st
  {
    hide PoolNames, AppSecretsIn;
    ScrubIdle(st.secrets, st.users, pool.namespace, pool.accounts, 0, start.provider.accounts);
    assert AppSecretsIn(st.secrets, pool.namespace) - start.provider.secretRefused == {};
    assert ReleaseAll(st.leases, start.leasesListed, start.leasesRefused) == st.leases;
    assert ResetClaims(st.claims, start.claimsListed, start.claimsRefused) == st.claims;
  }

  /**
   * Starting a pool at rest changes nothing, whatever fails, and the operator comes up unless a
   * creation is refused.
   */
  lemma SecondStartIdle(pool: Pool, st: Store, again: StartEnv)
    requires Rested(pool, st)
    ensures Start(pool, st, again).0 == st
    ensures Start(pool, st, again).1 <==> forall j | 0 <= j < |pool.accounts| :: Accepts(again.creates, j)
  {
    hide Rested, Cleanup;
    assert forall j | 0 <= j < |pool.accounts| :: NameOfLease(pool, j) in st.leases by {
      RestedNames(pool, st);
    }
    InitializeIdle(pool, st.leases, 0, again.creates);
    InitializeGrows(pool, st.leases, 0, again.creates);
    CleanupIdle(pool, st, again);
  }

  lemma RestedNames(pool: Pool, st: Store)
    requires Rested(pool, st)
    ensures forall j | 0 <= j < |pool.accounts| :: NameOfLease(pool, j) in st.leases
  {
    forall j | 0 <= j < |pool.accounts| ensures NameOfLease(pool, j) in st.leases {
      assert LeaseName(PROVIDER, pool.accounts[j].name) in PoolNames(pool);
    }
  }

  /**
   * What a recovery leaves of the claims: everything but their status, and the status of those that
   * were neither bound nor being released.
   */
  lemma StartKeepsClaims(pool: Pool, st: Store, start: StartEnv)
    ensures var claims' := Start(pool, st, start).0.claims;
            && claims'.Keys == st.claims.Keys
            && forall k | k in st.claims ::
                 && claims'[k].(status := st.claims[k].status, gen := st.claims[k].gen) == st.claims[k]
                 && (!NeedsReset(st.claims[k]) ==> claims'[k] == st.claims[k])
  {
  }

  /**
   * The reset exactly: a claim found Bound or Releasing is Pending afterwards, without lease,
   * times, connection and Secret, unless listing or its own write failed; no other claim and
   * nothing else of that one changes.
   */
  lemma ResetTerms(pool: Pool, st: Store, start: StartEnv, k: ClaimKey)
    requires k in st.claims
    ensures var (st', up) := Start(pool, st, start);
            var c := st.claims[k];
            && k in st'.claims
            && st'.claims[k]
            == if up && start.cleanup && start.claimsListed && k !in start.claimsRefused
                  && (c.status.phase == Bound || c.status.phase == Releasing)
               then c.(status := ClaimStatus(Pending, "", None, None, None, None), gen := c.gen + 1) else c
  {
    hide ScrubAccounts, ReleaseAll, AppSecretsIn, Initialize;
  }

  /** The leases exactly: a start frees the managed held ones that it can, and touches no other. */
  lemma StartLeasesTerms(pool: Pool, st: Store, start: StartEnv, n: string)
    requires n in st.leases
    ensures var (st', up) := Start(pool, st, start);
            var l := st.leases[n];
            && n in st'.leases
            && st'.leases[n]
            == if up && start.cleanup && start.leasesListed && n !in start.leasesRefused && l.spec.holder.Some?
                  && Labelled(l, "app.kubernetes.io/managed-by", "resource-pool-operator")
               then l.(spec := LeaseSpec(None, None, None), version := l.version + 1) else l
  {
    hide ScrubAccounts, ResetClaims, AppSecretsIn, LeaseLabels, LeaseName;
    InitializeGrows(pool, st.leases, 0, start.creates);
  }

  /** The Secrets exactly: a start deletes the prefixed ones of its own namespace that it can, and touches no other. */
  lemma StartSecretsTerms(pool: Pool, st: Store, start: StartEnv, key: SecretKey)
    ensures var (st', up) := Start(pool, st, start);
            && (key in st'.secrets <==>
                  key in st.secrets
                  && !(up && start.cleanup && start.provider.secretList && key !in start.provider.secretRefused
                       && key.ns == pool.namespace && "sf-appuser-" <= key.name))
            && (key in st'.secrets ==> st'.secrets[key] == st.secrets[key])
  {
    hide ScrubAccounts, ReleaseAll, ResetClaims, Initialize;
  }

  /** In every state of every run a claim that is neither Bound nor Releasing records and offers nothing. */
  lemma RunUnbound(pool: Pool, ss: seq<State>, es: seq<Event>, i: nat, k: ClaimKey)
    requires ValidConfig(pool.accounts) && IsRun(pool, ss, es) && i < |ss| && k in ss[i].store.claims
    requires ss[i].store.claims[k].status.phase != Bound && ss[i].store.claims[k].status.phase != Releasing
    ensures Unbound(ss[i].store.claims[k])
  {
    hide LeasesSound, ValidConfig, IsRun;
    RunSound(pool, ss, es, i);
    assert ClaimSound(ss[i].store.leases.Keys, ss[i].store.claims[k]);
  }

  /**
   * The reset looks only at phases. After a clean start no claim records a lease if and only
   * if every claim that recorded one was Bound or Releasing.
   */
  lemma RecordsGoneIff(pool: Pool, st: Store, start: StartEnv)
    requires CleanStart(start) && Start(pool, st, start).1
    ensures (forall k, n :: !Records(Start(pool, st, start).0, k, n))
       <==> forall k | k in st.claims && st.claims[k].status.leaseName != "" :: NeedsReset(st.claims[k])
  {
    var st' := Start(pool, st, start).0;
    if k :| k in st.claims && st.claims[k].status.leaseName != "" && !NeedsReset(st.claims[k]) {
      assert Records(st', k, st.claims[k].status.leaseName);
    }
  }

  /**
   * The cleanup looks for per-claim Secrets in the operator's namespace only, while they are
   * created in the namespaces of the claims: a start whose Secret calls succeed leaves none if
   * and only if all of them lie in the operator's namespace.
   */
  lemma AppSecretsGoneIff(pool: Pool, st: Store, start: StartEnv)
    requires start.cleanup && start.provider.secretList && start.provider.secretRefused == {}
    requires Start(pool, st, start).1
    ensures (forall key | key in Start(pool, st, start).0.secrets :: !HasAppSecretPrefix(key.name))
       <==> (forall key | key in st.secrets && HasAppSecretPrefix(key.name) :: key.ns == pool.namespace)
  {
    hide ScrubAccounts, Initialize, ReleaseAll, ResetClaims;
  }

  /** In particular the private key of a claim of another namespace survives every start. */
  lemma OtherNamespaceSecretSurvives(pool: Pool, st: Store, k: ClaimKey, start: StartEnv)
    requires k in st.claims && ValidKey(k) && Works(pool, st, k) && k.ns != pool.namespace
    ensures var key, st' := AppSecret(HolderIdentity(k)), Start(pool, st, start).0;
            key in st'.secrets && st'.secrets[key] == st.secrets[key]
  {
    hide ScrubAccounts, Initialize, ReleaseAll, ResetClaims, AppSecret, HolderIdentity, AccountFromUrl;
    AppSecretInjective(k, k);
  }

  /** Recovery over runs: a successful start in any reachable state, after any crashes, rests the pool. */
  lemma RunRecovers(pool: Pool, ss: seq<State>, es: seq<Event>, i: nat, again: StartEnv)
    requires ValidConfig(pool.accounts) && IsRun(pool, ss, es) && i < |es|
    requires es[i].Started? && es[i].survives && Successful(pool, ss[i].store, es[i].start)
    ensures ss[i + 1].up && Rested(pool, ss[i + 1].store)
    ensures Start(pool, ss[i + 1].store, again).0 == ss[i + 1].store
    ensures Start(pool, ss[i + 1].store, again).1 <==> forall j | 0 <= j < |pool.accounts| :: Accepts(again.creates, j)
  {
    hide Start, Successful, Rested;
    RunSound(pool, ss, es, i);
    StartRecovers(pool, ss[i], es[i].start);
    SecondStartIdle(pool, ss[i + 1].store, again);
  }
}
