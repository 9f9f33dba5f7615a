/**
 * What a claim, a lease and a resource hold after each operation, in the source's own formats,
 * constants and units, and without reference to the functions that compute it.
 */
module Terms {
  import opened Wrappers
  import opened Objects
  import opened Names
  import opened LeaseRules
  import opened Stores
  import opened Accounts
  import opened Leasing
  import opened Snowflake
  import opened Reconciling
  import opened Steps
  import opened Lifecycle
  import opened Exclusivity
  import opened Credentials
  import opened Scrubbing
  import opened Convergence
  import opened Waking

  /** `n` whole seconds are the duration `d`, cut toward zero. */
  predicate CutToSeconds(n: int, d: int) {
    if d >= 0 then n * 1_000_000_000 <= d < n * 1_000_000_000 + 1_000_000_000
    else n * 1_000_000_000 - 1_000_000_000 < d <= n * 1_000_000_000
  }

  /** The lease is held by `k` from the instant `stamp` for the duration `d`. */
  ghost predicate HeldFor(spec: LeaseSpec, k: ClaimKey, stamp: int, d: int) {
    && spec.holder == Some(k.ns + "/" + k.name)
    && spec.acquireTime == Some(stamp - stamp % 1_000)
    && spec.durationSeconds.Some? && CutToSeconds(spec.durationSeconds.value, d)
  }

  lemma HeldTerms(k: ClaimKey, stamp: int, c: Claim, d: int)
    requires Lasts(c.spec, d)
    ensures HeldFor(Held(HolderIdentity(k), stamp, DurationOf(c)), k, stamp, d)
    ensures c.spec.duration.None? ==> Held(HolderIdentity(k), stamp, DurationOf(c)).durationSeconds == Some(3_600)
  {
  }

  lemma TakingEndTerms(pool: Pool, st: Store, k: ClaimKey, e: Env, st': Store, name: string, d: int)
    requires e.get.Got? && AcquireEnd(pool, st, k, e, st') && Taken(pool, st, k, e) == Some(name)
    requires Lasts(e.get.claim.spec, d)
    ensures name in st'.leases
    ensures st'.leases[name].spec == LeaseSpec(None, None, None) || HeldFor(st'.leases[name].spec, k, e.clock.stamp, d)
    ensures st'.leases[name].spec.durationSeconds.Some? && e.get.claim.spec.duration.None? ==>
              st'.leases[name].spec.durationSeconds == Some(3_600)
  {
    hide Taken, TakenLeases, AcquireResource, HeldFor, Held, DurationOf, HolderIdentity, UpdateStatus;
    HeldTerms(k, e.clock.stamp, e.get.claim, d);
    Leasing.ReleaseEffect(TakenLeases(st, k, e), e.acquire.giveBack.read, e.acquire.giveBack.accepted);
  }

  /**
   * Whatever fails afterwards and whichever version of the claim was read: the lease that a
   * reconciliation takes ends up free, or held by its claim for the requested duration, which
   * is one hour if none was requested.
   */
  lemma TakingTerms(pool: Pool, st: Store, now: int, k: ClaimKey, e: Env, name: string, d: int)
    requires LeasesSound(pool, st.leases, now) && Possible(pool, st, now, k, e)
    requires Taken(pool, st, k, e) == Some(name) && Lasts(e.get.claim.spec, d)
    ensures var leases := Reconcile(pool, st, k, e).0.leases;
            && name in leases
            && (leases[name].spec == LeaseSpec(None, None, None) || HeldFor(leases[name].spec, k, e.clock.stamp, d))
            && (leases[name].spec.durationSeconds.Some? && e.get.claim.spec.duration.None? ==>
                  leases[name].spec.durationSeconds == Some(3_600))
  {
    hide Reconcile, LeasesSound, Possible, HeldFor, AcquireEnd;
    ReconcileEnds(pool, st, now, k, e);
    TakingEndTerms(pool, st, k, e, Reconcile(pool, st, k, e).0, name, d);
  }

  /** The lease names no holder, or its acquire time and duration lie behind. */
  predicate Unheld(spec: LeaseSpec, now: int) {
    || spec.holder.None?
    || (spec.acquireTime.Some? && spec.durationSeconds.Some?
        && now > spec.acquireTime.value + spec.durationSeconds.value * 1_000_000_000)
  }

  /**
   * The lease that a reconciliation takes is one of the provider's, carries every label the
   * claim requires, and had no holder or was past its recorded window at the check.
   */
  lemma TakenSuits(pool: Pool, st: Store, now: int, k: ClaimKey, e: Env, name: string)
    requires LeasesSound(pool, st.leases, now) && Possible(pool, st, now, k, e) && Taken(pool, st, k, e) == Some(name)
    ensures name in st.leases
    ensures var l, required := st.leases[name], e.get.claim.spec.requiredLabels;
            && required.Items <= l.labels.Items
            && Labelled(l, "app.kubernetes.io/managed-by", "resource-pool-operator")
            && Labelled(l, "pool.dataverse.redhat.com/resource-type", "snowflake")
            && Unheld(l.spec, e.clock.check)
  {
    hide LeaseSound, HolderIdentity, Held;
    var c := e.get.claim;
    FindFreeIsExact(e.acquire.view.value, c.spec.typ, c.spec.requiredLabels);
    var found := FindFree(e.acquire.view, c.spec.typ, c.spec.requiredLabels).value;
    var i :| 0 <= i < |e.acquire.view.value| && e.acquire.view.value[i].lease == found
             && Suits(e.acquire.view.value[i], c.spec.typ, c.spec.requiredLabels);
    assert e.acquire.view.value[i] in e.acquire.view.value;
    TakeEffect(st.leases, e.acquire.read, HolderIdentity(k), DurationOf(c), e.clock.check, e.clock.stamp,
        e.acquire.takeOk);
  }

  /** What a claim offers once it is bound to the account `a` at the instant `bind`. */
  ghost predicate Offers(status: ClaimStatus, k: ClaimKey, a: Account, bind: int, d: int) {
    && status.phase == Bound
    && status.leaseName == "resource-lease-snowflake-" + a.name
    && status.acquiredAt == Some(bind - bind % 1_000_000_000)
    && status.expiresAt == Some((bind + d) - (bind + d) % 1_000_000_000)
    && status.credentialSecret == Some("sf-appuser-" + (k.ns + "-" + k.name))
    && status.connection.Some?
    && var connection := status.connection.value;
       && connection.accountUrl == a.accountUrl && connection.warehouse == a.warehouse
       && connection.database == a.database && connection.schema == a.schema && connection.role == a.role
       && connection.accountIdentifier == AccountIdentifier(a.accountUrl)
  }

  lemma BoundTerms(k: ClaimKey, c: Claim, a: Account, clock: Clock, d: int)
    requires ValidKey(k) && Lasts(c.spec, d)
    ensures Offers(BoundClaim(k, c, LeaseName(PROVIDER, a.name), a, clock).status, k, a, clock.bind, d)
  {
    hide AccountIdentifier, AppSecret, HolderIdentity;
    AppSecretIs(k);
    assert LEASE_PREFIX + PROVIDER + "-" + a.name == "resource-lease-snowflake-" + a.name;
  }

  lemma ProvisionBinds(pool: Pool, st: Store, k: ClaimKey, c: Claim, name: string, a: Account, clock: Clock,
                       e: AcquireEnv, st': Store)
    requires PossibleClaimRead(st.claims, k, c) && c.status.phase != Bound && k in st.claims && !IsBound(st, k)
    requires ProvisionEnd(pool, st, k, c, name, a, clock, e, st') && IsBound(st', k)
    ensures st'.leases == st.leases && c == st.claims[k]
    ensures st'.claims[k].status == BoundClaim(k, c, name, a, clock).status
    ensures st'.claims[k] == st.claims[k].(status := st'.claims[k].status, gen := st'.claims[k].gen)
  {
    hide AcquireResource, HolderIdentity, AppSecret, ConnectionOf, Release;
  }

  lemma BindingEndTerms(pool: Pool, st: Store, now: int, k: ClaimKey, e: Env, st': Store, name: string, d: int)
    requires LeasesSound(pool, st.leases, now) && ClaimsSound(st.leases.Keys, st.claims)
    requires e.get.Got? && PossibleClaimRead(st.claims, k, e.get.claim) && Lasts(e.get.claim.spec, d)
    requires e.get.claim.status.phase != Bound && k in st.claims && !IsBound(st, k)
    requires AcquireEnd(pool, st, k, e, st') && Taken(pool, st, k, e) == Some(name) && IsBound(st', k)
    ensures name in st'.leases && HeldFor(st'.leases[name].spec, k, e.clock.stamp, d)
    ensures exists a :: Primary(pool, a) && AccountFor(pool, st.leases, name) == Some(a) && a in pool.accounts
                        && Offers(st'.claims[k].status, k, a, e.clock.bind, d)
    ensures st'.claims[k] == st.claims[k].(status := st'.claims[k].status, gen := st'.claims[k].gen)
  {
    hide Taken, TakenLeases, ProvisionEnd, HeldFor, Held, DurationOf, HolderIdentity, Offers, BoundClaim, LeasesSound,
        LeaseName;
    var c := e.get.claim;
    HeldTerms(k, e.clock.stamp, c, d);
    SoundAccount(pool, st.leases, now, name);
    var a := AccountFor(pool, st.leases, name).value;
    BoundTerms(k, c, a, e.clock, d);
    ProvisionBinds(pool, st.(leases := TakenLeases(st, k, e)), k, c, name, a, e.clock, e.acquire, st');
  }

  /**
   * A reconciliation that binds its claim leaves the lease held for the requested duration from
   * the instant of the lock, and the claim with the lease's account, the binding time, the
   * deadline that far after it, and the name of its Secret; nothing else of the claim changes.
   */
  lemma BindingTerms(pool: Pool, st: Store, now: int, k: ClaimKey, e: Env, d: int)
    requires LeasesSound(pool, st.leases, now) && ClaimsSound(st.leases.Keys, st.claims)
    requires Possible(pool, st, now, k, e) && e.get.Got? && Lasts(e.get.claim.spec, d)
    requires k in st.claims && !IsBound(st, k) && IsBound(Reconcile(pool, st, k, e).0, k)
    ensures Taken(pool, st, k, e).Some?
    ensures var st', name := Reconcile(pool, st, k, e).0, Taken(pool, st, k, e).value;
            && name in st'.leases && HeldFor(st'.leases[name].spec, k, e.clock.stamp, d)
            && (exists a :: Primary(pool, a) && AccountFor(pool, st.leases, name) == Some(a) && a in pool.accounts
                            && Offers(st'.claims[k].status, k, a, e.clock.bind, d))
            && st'.claims[k] == st.claims[k].(status := st'.claims[k].status, gen := st'.claims[k].gen)
  {
    hide Reconcile, LeasesSound, ClaimsSound, HeldFor, Offers, AcquireEnd, DeletionEnd;
    ReconcileEnds(pool, st, now, k, e);
    var st' := Reconcile(pool, st, k, e).0;
    ReadIsPossible(pool, st, now, k, e);
    BinderTakes(pool, st, k, e, st');
    BindingEndTerms(pool, st, now, k, e, st', Taken(pool, st, k, e).value, d);
  }

  /** Only an acquisition that takes a lease binds. */
  lemma BinderTakes(pool: Pool, st: Store, k: ClaimKey, e: Env, st': Store)
    requires ClaimsSound(st.leases.Keys, st.claims) && e.get.Got? && PossibleClaimRead(st.claims, k, e.get.claim)
    requires ReconcileEnd(pool, st, k, e, st') && k in st.claims && !IsBound(st, k) && IsBound(st', k)
    ensures Taken(pool, st, k, e).Some? && AcquireEnd(pool, st, k, e, st') && e.get.claim.status.phase != Bound
  {
    hide DeletionEnd, AcquireEnd;
    var c := e.get.claim;
    if c.spec.typ == PROVIDER && c.deleting {
      DeletionBindsNothing(pool, st, k, c, e.deletion, st');
    } else if Taken(pool, st, k, e).None? {
      OtherwiseQuiet(pool, st, k, e, st');
    }
  }

  lemma DeletionBindsNothing(pool: Pool, st: Store, k: ClaimKey, c: Claim, e: DeletionEnv, st': Store)
    requires ClaimsSound(st.leases.Keys, st.claims) && PossibleClaimRead(st.claims, k, c)
    requires c.deleting && c.spec.typ == PROVIDER && DeletionEnd(pool, st, k, c, e, st') && !IsBound(st, k)
    ensures !IsBound(st', k)
  {
    hide ReleaseRecorded, MarkClaims, ClaimSound;
    if c.finalizer {
      MarkSound(st.leases.Keys, st.claims, k, c, e.statusOk);
    }
  }

  /** The phase that a reconciliation without deletion and binding writes, if it writes one. */
  ghost predicate Announces(pool: Pool, st: Store, k: ClaimKey, e: Env, phase: Phase)
    requires e.get.Got?
  {
    var c := e.get.claim;
    if c.spec.typ != "snowflake" then phase == Failed
    else
      && !c.deleting && c.finalizer && c.status.phase != Bound && !Provisions(pool, st, k, e)
      && phase == if Taken(pool, st, k, e).None? && NothingListed(e.acquire.view, c.spec.requiredLabels) then Pending
                  else Failed
  }

  lemma FailedProvisioning(pool: Pool, st: Store, k: ClaimKey, c: Claim, name: string, a: Account, clock: Clock,
                           e: AcquireEnv, st': Store)
    requires k in st.claims && c == st.claims[k] && ProvisionEnd(pool, st, k, c, name, a, clock, e, st')
    requires FindAccount(pool.accounts, a.name).Some? && AccountOf(pool.accounts, ResourceOf(a)) == a
    requires c.status.phase != Bound
    ensures k in st'.claims
    ensures !StoresSecret(st.secrets, HolderIdentity(k), a.credentialSecretName, a, e.provider) || !e.statusOk ==>
              st'.claims[k].status == if e.statusOk then c.status.(phase := Failed) else c.status
  {
    hide AcquireResource, StoresSecret, HolderIdentity, AccountFromUrl;
    AcquireExact(pool.accounts, st, ResourceOf(a), HolderIdentity(k), e.provider);
    var stored := AcquireResource(pool.accounts, st, ResourceOf(a), HolderIdentity(k), e.provider).1.Some?;
    assert stored <==> StoresSecret(st.secrets, HolderIdentity(k), a.credentialSecretName, a, e.provider);
    assert stored || e.statusOk ==> WithPhase(c, Failed).status == c.status.(phase := Failed);
  }

  lemma EndAnnounces(pool: Pool, st: Store, k: ClaimKey, e: Env, st': Store, phase: Phase)
    requires ClaimsSound(st.leases.Keys, st.claims) && e.get.Got? && CurrentRead(st, k, e)
    requires ReconcileEnd(pool, st, k, e, st') && Announces(pool, st, k, e, phase)
    ensures k in st'.claims
    ensures st'.claims[k].status
         == if (if e.get.claim.spec.typ != "snowflake" then e.statusOk else e.acquire.statusOk)
            then st.claims[k].status.(phase := phase) else st.claims[k].status
  {
    hide Taken, TakenLeases, ProvisionEnd, StoresSecret, NothingListed, HolderIdentity, DeletionEnd, FindFree;
    var c := e.get.claim;
    if c.spec.typ == PROVIDER {
      NothingListedIff(e.acquire.view, c.spec.requiredLabels);
      if Taken(pool, st, k, e).Some? {
        var name := Taken(pool, st, k, e).value;
        var a := AccountFor(pool, st.leases, name).value;
        FailedProvisioning(pool, st.(leases := TakenLeases(st, k, e)), k, c, name, a, e.clock, e.acquire, st');
      } else {
        TakenOrNot(pool, st, k, e);
      }
    }
  }

  lemma TakenOrNot(pool: Pool, st: Store, k: ClaimKey, e: Env)
    requires Taken(pool, st, k, e).None?
    ensures !Provisions(pool, st, k, e)
  {
  }

  /**
   * The claim says what went wrong: Failed for an unknown type, a lost lock or failed
   * provisioning, and Pending exactly when the listing held nothing for it. Only the phase is
   * written, and a refused write leaves the status as it was.
   */
  lemma PhaseWritten(pool: Pool, st: Store, now: int, k: ClaimKey, e: Env, phase: Phase)
    requires LeasesSound(pool, st.leases, now) && ClaimsSound(st.leases.Keys, st.claims)
    requires Possible(pool, st, now, k, e) && e.get.Got? && CurrentRead(st, k, e) && Announces(pool, st, k, e, phase)
    ensures var claims := Reconcile(pool, st, k, e).0.claims;
            && k in claims
            && claims[k].status == if (if e.get.claim.spec.typ != "snowflake" then e.statusOk else e.acquire.statusOk)
                                   then st.claims[k].status.(phase := phase) else st.claims[k].status
  {
    hide Reconcile, LeasesSound, ClaimsSound, Announces, ReconcileEnd;
    ReconcileEnds(pool, st, now, k, e);
    EndAnnounces(pool, st, k, e, Reconcile(pool, st, k, e).0, phase);
  }

  // Labels.

  /** In every sound pool a lease carries exactly its account's labels and the three managed ones. */
  lemma LeaseLabelsAreConfigured(pool: Pool, leases: Leases, now: int, n: string)
    requires ValidConfig(pool.accounts) && LeasesSound(pool, leases, now) && n in leases
    ensures exists a :: Primary(pool, a) && AccountFor(pool, leases, n) == Some(a)
                        && n == "resource-lease-snowflake-" + a.name && CarriesLabels(leases[n], a)
  {
    hide ValidConfig, LeasesSound, LeaseName;
    SoundAccount(pool, leases, now, n);
    var a := AccountFor(pool, leases, n).value;
    assert LEASE_PREFIX + PROVIDER + "-" + a.name == "resource-lease-snowflake-" + a.name;
    assert LeaseName(PROVIDER, a.name) == "resource-lease-snowflake-" + a.name by { LeaseNameIs(a.name); }
    SoundLabels(pool, leases, now, n, a);
  }

  lemma LeaseNameIs(name: string)
    ensures LeaseName(PROVIDER, name) == "resource-lease-snowflake-" + name
  {
    assert LEASE_PREFIX + PROVIDER + "-" + name == "resource-lease-snowflake-" + name;
  }

  ghost predicate CarriesLabels(l: Lease, a: Account) {
    && (forall key | key in a.labels :: Labelled(l, key, a.labels[key]))
    && Labelled(l, "app.kubernetes.io/managed-by", "resource-pool-operator")
    && Labelled(l, "pool.dataverse.redhat.com/resource-type", "snowflake")
    && Labelled(l, "pool.dataverse.redhat.com/resource-name", a.name)
    && forall key | key in l.labels :: key in a.labels || Reserved(key)
  }

  lemma LabelKeys(providerType: string, r: Resource)
    ensures forall key | key in LeaseLabels(providerType, r) :: key in r.labels || Reserved(key)
  {
  }

  lemma SoundLabels(pool: Pool, leases: Leases, now: int, n: string, a: Account)
    requires ValidConfig(pool.accounts) && LeasesSound(pool, leases, now) && n in leases
    requires AccountFor(pool, leases, n) == Some(a)
    ensures CarriesLabels(leases[n], a)
  {
    hide LeaseName, ValidConfig, LeaseLabels;
    assert LeaseSound(pool, leases[n], now);
    var i := AccountIndex(pool, leases[n]).value;
    LabelsOfLease(pool.accounts, i);
    LeaseLabelsIff(PROVIDER, ResourcesOf(pool.accounts)[i]);
    LabelKeys(PROVIDER, ResourcesOf(pool.accounts)[i]);
  }

  /** Some account's lease is free and its configured labels include the required ones. */
  ghost predicate MatchingAccount(pool: Pool, leases: Leases, now: int, required: map<string, string>) {
    exists a :: Primary(pool, a) && FreeFor(leases, now, a) && required.Items <= a.labels.Items
  }

  predicate FreeFor(leases: Leases, now: int, a: Account) {
    var n := LeaseName(PROVIDER, a.name);
    n in leases && Unheld(leases[n].spec, now)
  }

  /**
   * For required labels other than the managed ones: the search over a current listing finds a
   * lease if and only if some account with a free lease is configured with all of them.
   */
  lemma MatchingAccountFound(pool: Pool, leases: Leases, items: seq<Seen>, now: int, required: map<string, string>)
    requires ValidConfig(pool.accounts) && LeasesSound(pool, leases, now) && Lists(items, leases, now)
    requires forall key | key in required :: !Reserved(key)
    ensures FindFree(Some(items), PROVIDER, required).Some? <==> MatchingAccount(pool, leases, now, required)
  {
    hide ValidConfig, LeasesSound, FindFree, Candidate, LeaseName, Lists, CarriesLabels;
    FindsCandidate(leases, items, now, required);
    if n :| n in leases && Candidate(leases[n], now, PROVIDER, required) {
      SoundAccount(pool, leases, now, n);
      var a := AccountFor(pool, leases, n).value;
      CandidateMatches(pool, leases, now, n, a, required);
      assert FreeFor(leases, now, a);
    }
    if MatchingAccount(pool, leases, now, required) {
      var a :| Primary(pool, a) && FreeFor(leases, now, a) && required.Items <= a.labels.Items;
      LeaseOfAccount(pool, leases, now, a);
      CandidateMatches(pool, leases, now, LeaseName(PROVIDER, a.name), a, required);
    }
  }

  lemma CandidateMatches(pool: Pool, leases: Leases, now: int, n: string, a: Account, required: map<string, string>)
    requires ValidConfig(pool.accounts) && LeasesSound(pool, leases, now) && n in leases
    requires AccountFor(pool, leases, n) == Some(a) && forall key | key in required :: !Reserved(key)
    ensures Candidate(leases[n], now, PROVIDER, required)
       <==> Unheld(leases[n].spec, now) && required.Items <= a.labels.Items
  {
    hide ValidConfig, LeasesSound;
    SoundLabels(pool, leases, now, n, a);
    ItemsIncluded(leases[n].labels, required);
    ItemsIncluded(a.labels, required);
  }

  // Admin Secrets.

  /** The Secret is there with a user name and a private key. */
  predicate HasCredentials(secrets: Secrets, key: SecretKey) {
    key in secrets && secrets[key].username != "" && secrets[key].privateKey.Some?
  }

  /**
   * Without the admin Secret in the claim's namespace an acquisition changes nothing; with it, it
   * succeeds unless a call fails.
   */
  lemma AcquisitionNeedsAdminSecret(accounts: seq<Account>, st: Store, r: Resource, k: ClaimKey, calls: AcquireCalls)
    requires FindAccount(accounts, r.name).Some? && SlashFree(k.ns)
    ensures !HasCredentials(st.secrets, SecretKey(k.ns, r.credentialSecretName)) ==>
              AcquireResource(accounts, st, r, HolderIdentity(k), calls) == (st, None)
    ensures HasCredentials(st.secrets, SecretKey(k.ns, r.credentialSecretName))
            && AcquireAllOk(AccountOf(accounts, r), calls) ==>
              AcquireResource(accounts, st, r, HolderIdentity(k), calls).1.Some?
  {
    hide HolderIdentity, Text.Before, AccountFromUrl, AcquireResource;
    ClaimNamespace(k);
    AcquireSucceeds(accounts, st, r, HolderIdentity(k), calls);
  }

  /** A release and the startup cleanup of one account look for it in the operator's namespace. */
  lemma CleanupNeedsAdminSecret(accounts: seq<Account>, st: Store, ns: string, r: Resource, claimName: string,
                                calls: ReleaseCalls, a: Account, scrub: ScrubCalls)
    requires FindAccount(accounts, r.name).Some?
    ensures ReleaseResource(accounts, st, ns, r, claimName, calls).1
       <==> calls.adminGet && calls.connect && HasCredentials(st.secrets, SecretKey(ns, r.credentialSecretName))
    ensures !ReleaseResource(accounts, st, ns, r, claimName, calls).1 ==>
              ReleaseResource(accounts, st, ns, r, claimName, calls).0 == st
    ensures !HasCredentials(st.secrets, SecretKey(ns, a.credentialSecretName)) ==>
              ScrubAccount(st.secrets, st.users, ns, a, scrub) == st.users
  {
    hide AccountFromUrl, RevokeRoles, ClearPublicKeys, AppSecret;
  }

  // URLs.

  /** A host as Snowflake names accounts: no scheme in front, no domain behind. */
  predicate BareHost(host: string) {
    && ':' !in host
    && !(|".snowflakecomputing.com"| <= |host|
        && host[|host| - |".snowflakecomputing.com"|..] == ".snowflakecomputing.com")
  }

  predicate Scheme(scheme: string) {
    scheme == "" || scheme == "https://" || scheme == "http://"
  }

  lemma TrimmedScheme(scheme: string, rest: string)
    requires Scheme(scheme) && ':' !in rest
    ensures Text.TrimPrefix(Text.TrimPrefix(scheme + rest, "https://"), "http://") == rest
  {
    var s := scheme + rest;
    assert s[|scheme|..] == rest;
    assert "https://"[5] == ':' && "http://"[4] == ':';
    if scheme == "http://" {
      assert s[4] == ':' && "https://"[4] == 's';
    }
  }

  /** All spellings of a URL lead to the same account. */
  lemma UrlForms(scheme: string, host: string)
    requires Scheme(scheme) && BareHost(host)
    ensures AccountFromUrl(scheme + host) == host
    ensures AccountFromUrl(scheme + (host + ".snowflakecomputing.com")) == host
  {
    TrimmedScheme(scheme, host);
    var long := host + ".snowflakecomputing.com";
    TrimmedScheme(scheme, long);
    assert long[|long| - |".snowflakecomputing.com"|..] == ".snowflakecomputing.com";
    assert long[..|long| - |".snowflakecomputing.com"|] == host;
  }

  /** The account identifier is the part before the first dot, whatever the spelling. */
  lemma IdentifierForms(scheme: string, id: string, region: string)
    requires Scheme(scheme) && '.' !in id && BareHost(id + "." + region)
    ensures AccountIdentifier(scheme + (id + "." + region)) == id
    ensures AccountIdentifier(scheme + (id + "." + region + ".snowflakecomputing.com")) == id
  {
    UrlForms(scheme, id + "." + region);
    assert id + "." + region == id + ['.'] + region;
    Text.BeforeSeparator(id, region, '.');
  }
}
