/**
 * Working credentials: the private key in a bound claim's Secret pairs with slot 1 of the app
 * user on the claim's account, and all configured roles are granted there. Each
 * reconciliation, with any failures and from any past version of the claim, keeps this if and
 * only if it takes no key, role or Secret from a claim that stays bound; so does every run of
 * such steps, and every disciplined run whose deletions mark or remove their claims.
 */
module Credentials {
  import opened Wrappers
  import opened Objects
  import opened Names
  import opened Stores
  import opened Registry
  import opened Accounts
  import opened Leasing
  import opened Snowflake
  import opened Reconciling
  import opened Starting
  import opened Steps
  import opened Runs
  import opened Lifecycle
  import opened Exclusivity

  /** What a bound claim hands to its user works. */
  ghost predicate Works(pool: Pool, st: Store, k: ClaimKey)
    requires k in st.claims
  {
    var c := st.claims[k];
    var account := AccountFor(pool, st.leases, c.status.leaseName);
    var secret := AppSecret(HolderIdentity(k));
    && account.Some?
    && c.status.connection == Some(ConnectionOf(account.value))
    && c.status.credentialSecret == Some(secret.name)
    && secret in st.secrets && st.secrets[secret].privateKey.Some?
    && Provisioned(st, account.value, HolderIdentity(k), st.secrets[secret].privateKey.value)
  }

  ghost predicate Credentialed(pool: Pool, st: Store) {
    forall k | k in st.claims && st.claims[k].status.phase == Bound :: Works(pool, st, k)
  }

  /** Different leases of the pool stand for different Snowflake accounts. */
  lemma AccountsDiffer(pool: Pool, leases: Leases, now: int, m: string, n: string)
    requires ValidConfig(pool.accounts) && LeasesSound(pool, leases, now) && m in leases && n in leases && m != n
    ensures AccountFor(pool, leases, m).Some? && AccountFor(pool, leases, n).Some?
    ensures AccountFor(pool, leases, m).value.Site() != AccountFor(pool, leases, n).value.Site()
    ensures AccountFor(pool, leases, m).value in pool.accounts
  {
    assert LeaseSound(pool, leases[m], now) && LeaseSound(pool, leases[n], now);
    var a, b := AccountFor(pool, leases, m).value, AccountFor(pool, leases, n).value;
    assert a.name == LabelledResource(leases[m]) && b.name == LabelledResource(leases[n]);
    LeaseNameInjective(a.name, b.name);
  }

  /**
   * The deletion path recovers the registry entry the acquisition used: the slice of the
   * recorded lease name finds the lease's own resource, with the admin Secret it was
   * configured with.
   */
  lemma CleanupHitsWhatWasAcquired(pool: Pool, st: Store, now: int, k: ClaimKey, c: Claim, calls: ReleaseCalls)
    requires ValidConfig(pool.accounts) && LeasesSound(pool, st.leases, now)
    requires c.spec.typ == PROVIDER && c.status.leaseName in st.leases
    ensures AccountFor(pool, st.leases, c.status.leaseName).Some?
    ensures var a := AccountFor(pool, st.leases, c.status.leaseName).value;
            var i := Find(ResourcesOf(pool.accounts), ResourceNameOf(c.spec.typ, c.status.leaseName));
            && i.Some? && ResourcesOf(pool.accounts)[i.value] == ResourceOf(a)
            && ResourceOf(a).credentialSecretName == a.credentialSecretName
            && FindAccount(pool.accounts, a.name).Some? && pool.accounts[FindAccount(pool.accounts, a.name).value] == a
            && ReleaseRecorded(pool, st, k, c, calls)
            == ReleaseResource(pool.accounts, st, pool.namespace, ResourceOf(a), HolderIdentity(k), calls).0
  {
    var l := st.leases[c.status.leaseName];
    assert LeaseSound(pool, l, now);
    SliceUndoesLeaseName(PROVIDER, LabelledResource(l));
    LookupsAgree(pool.accounts, LabelledResource(l));
    var a := AccountFor(pool, st.leases, c.status.leaseName).value;
    assert a in pool.accounts && Complete(a);
  }

  ghost predicate LabelsKept(leases: Leases, leases': Leases) {
    leases'.Keys == leases.Keys && forall n | n in leases :: leases'[n].labels == leases[n].labels
  }

  predicate IsBound(st: Store, j: ClaimKey) {
    j in st.claims && st.claims[j].status.phase == Bound
  }

  /** A bound claim whose account, Secret, lease labels and status are untouched keeps working. */
  lemma WorksFrame(pool: Pool, st: Store, st': Store, j: ClaimKey)
    requires j in st.claims && j in st'.claims && st'.claims[j].status == st.claims[j].status && Works(pool, st, j)
    requires LabelsKept(st.leases, st'.leases)
    requires var url := AccountFor(pool, st.leases, st.claims[j].status.leaseName).value.Site();
             url in st'.users && st'.users[url] == st.users[url]
    requires var secret := AppSecret(HolderIdentity(j));
             secret in st'.secrets && st'.secrets[secret] == st.secrets[secret]
    ensures Works(pool, st', j)
  {
  }

  // Deletions.

  /** The provider's cleanup takes slot 1 or a configured role from the account. */
  predicate Withdraws(secrets: Secrets, ns: string, a: Account, calls: ReleaseCalls) {
    && Connects(secrets, ns, a.credentialSecretName, calls.adminGet, calls.connect)
    && (Accepts(calls.clear, 0) || exists i | 0 <= i < |a.appUserRoles| :: Accepts(calls.revokes, i))
  }

  /** The provider's cleanup deletes the claim's Secret. */
  predicate DropsSecret(secrets: Secrets, ns: string, a: Account, calls: ReleaseCalls) {
    Connects(secrets, ns, a.credentialSecretName, calls.adminGet, calls.connect) && calls.secretGet
        && calls.secretDelete
  }

  /** Exactly what the provider's cleanup of claim `k` does on the account `a` and to the Secrets. */
  ghost predicate CleanedFor(pool: Pool, st: Store, st': Store, a: Account, k: ClaimKey, calls: ReleaseCalls) {
    && SameElsewhere(st.users, st'.users, a.Site()) && Shrinks(st.users, st'.users)
    && (if Connects(st.secrets, pool.namespace, a.credentialSecretName, calls.adminGet, calls.connect)
        then a.Site() in st.users ==>
               Cleaned(st.users[a.Site()], st'.users[a.Site()], a.appUserRoles, calls.revokes, calls.clear)
        else st'.users == st.users)
    && st'.secrets == (if DropsSecret(st.secrets, pool.namespace, a, calls)
                       then st.secrets - {AppSecret(HolderIdentity(k))} else st.secrets)
  }

  lemma ReleaseDoes(pool: Pool, st: Store, now: int, k: ClaimKey, c: Claim, calls: ReleaseCalls)
    requires ValidConfig(pool.accounts) && LeasesSound(pool, st.leases, now)
    requires c.spec.typ == PROVIDER && c.status.leaseName in st.leases
    ensures AccountFor(pool, st.leases, c.status.leaseName).Some?
    ensures var a := AccountFor(pool, st.leases, c.status.leaseName).value;
            CleanedFor(pool, st, ReleaseRecorded(pool, st, k, c, calls), a, k, calls)
  {
    hide ReleaseRecorded, LeasesSound, ReleaseResource, Shrinks, AdminReady, SameElsewhere, AppSecret,
        HolderIdentity, ValidConfig, LabelledResource, Cleaned, AccountFromUrl;
    CleanupHitsWhatWasAcquired(pool, st, now, k, c, calls);
    var a := AccountFor(pool, st.leases, c.status.leaseName).value;
    Snowflake.ReleaseEffect(pool.accounts, st, pool.namespace, ResourceOf(a), HolderIdentity(k), calls);
  }

  lemma CleanedSame(pool: Pool, st: Store, st1: Store, st': Store, a: Account, k: ClaimKey, calls: ReleaseCalls)
    requires CleanedFor(pool, st, st1, a, k, calls) && st'.users == st1.users && st'.secrets == st1.secrets
    ensures CleanedFor(pool, st, st', a, k, calls)
  {
  }

  /** A deletion works on the recorded lease's account and the claim's own Secret. */
  lemma DeletionDoes(pool: Pool, st: Store, now: int, k: ClaimKey, c: Claim, e: DeletionEnv, st': Store)
    requires ValidConfig(pool.accounts) && LeasesSound(pool, st.leases, now)
    requires c.finalizer && c.spec.typ == PROVIDER && PossibleClaimRead(st.claims, k, c)
    requires c.status.leaseName == "" || c.status.leaseName in st.leases
    requires DeletionEnd(pool, st, k, c, e, st')
    ensures c.status.leaseName == "" ==> st'.users == st.users && st'.secrets == st.secrets
    ensures c.status.leaseName != "" ==>
              && AccountFor(pool, st.leases, c.status.leaseName).Some?
              && CleanedFor(pool, st, st', AccountFor(pool, st.leases, c.status.leaseName).value, k, e.provider)
  {
    hide ReleaseRecorded, LeasesSound, ValidConfig, CleanedFor;
    var held := MarkClaims(st.claims, k, c, e.statusOk).1;
    assert held.spec.typ == PROVIDER && held.status.leaseName == c.status.leaseName;
    if held.status.leaseName != "" {
      ReleaseDoes(pool, st, now, k, held, e.provider);
      var a := AccountFor(pool, st.leases, c.status.leaseName).value;
      CleanedSame(pool, st, ReleaseRecorded(pool, st, k, held, e.provider), st', a, k, e.provider);
    }
  }

  /** The deletion's own claim stops being bound: it is marked Releasing or removed. */
  predicate Unbinds(st: Store, k: ClaimKey, c: Claim, e: DeletionEnv) {
    IsCurrent(st.claims, k, c) && (e.statusOk || (Lands(st.leases, e.release) && e.finalizerOk))
  }

  /** A deletion leaves every other claim alone, and its own claim bound exactly if it does not unbind it. */
  lemma DeletionUnbinds(pool: Pool, st: Store, k: ClaimKey, c: Claim, e: DeletionEnv, st': Store)
    requires ClaimsSound(st.leases.Keys, st.claims) && PossibleClaimRead(st.claims, k, c)
    requires c.deleting && c.finalizer && c.spec.typ == PROVIDER && c.status.leaseName != ""
    requires DeletionEnd(pool, st, k, c, e, st')
    ensures OnlyClaim(st.claims, st'.claims, k) && LabelsKept(st.leases, st'.leases)
    ensures IsBound(st', k) <==> IsBound(st, k) && !Unbinds(st, k, c, e)
    ensures IsBound(st', k) ==> st'.claims[k].status == st.claims[k].status
  {
    hide ReleaseRecorded, MarkClaims, ClaimsSound;
    MarkSound(st.leases.Keys, st.claims, k, c, e.statusOk);
    Leasing.ReleaseEffect(st.leases, e.release.read, e.release.accepted);
  }

  /** What the deletion of `k` on the account of the lease `name` takes from the bound claim `j`. */
  predicate Robs(pool: Pool, st: Store, k: ClaimKey, name: string, a: Account, calls: ReleaseCalls, j: ClaimKey) {
    || (Records(st, j, name) && Withdraws(st.secrets, pool.namespace, a, calls))
    || (j == k && DropsSecret(st.secrets, pool.namespace, a, calls))
  }

  lemma CleanedServesIff(u: AppUser, u': AppUser, a: Account, revokes: seq<bool>, clear: seq<bool>, key: nat)
    requires Cleaned(u, u', a.appUserRoles, revokes, clear)
    requires u.slot1 == Some(key) && forall role | role in a.appUserRoles :: role in u.roles
    ensures u'.slot1 == Some(key) && (forall role | role in a.appUserRoles :: role in u'.roles)
       <==> !Accepts(clear, 0) && !exists i | 0 <= i < |a.appUserRoles| :: Accepts(revokes, i)
  {
    if i :| 0 <= i < |a.appUserRoles| && Accepts(revokes, i) {
      assert Revoked(a.appUserRoles, 0, revokes, a.appUserRoles[i]);
    }
  }

  lemma CleanedWorksIff(pool: Pool, st: Store, now: int, k: ClaimKey, name: string, a: Account, calls: ReleaseCalls,
                        st': Store, j: ClaimKey)
    requires ValidConfig(pool.accounts) && LeasesSound(pool, st.leases, now) && ClaimsSound(st.leases.Keys, st.claims)
    requires name in st.leases && name != "" && AccountFor(pool, st.leases, name) == Some(a) && ValidKey(k)
    requires CleanedFor(pool, st, st', a, k, calls) && LabelsKept(st.leases, st'.leases)
    requires IsBound(st, j) && Works(pool, st, j) && j in st'.claims && st'.claims[j].status == st.claims[j].status
    ensures Works(pool, st', j) <==> !Robs(pool, st, k, name, a, calls, j)
  {
    hide LeasesSound, ValidConfig, AccountFromUrl, AppSecret, HolderIdentity, Connects, Cleaned;
    AppSecretInjective(j, k);
    assert ClaimSound(st.leases.Keys, st.claims[j]);
    var own := AccountFor(pool, st.leases, st.claims[j].status.leaseName).value;
    if !Records(st, j, name) {
      AccountsDiffer(pool, st.leases, now, st.claims[j].status.leaseName, name);
      assert own.Site() != a.Site() && st'.users[own.Site()] == st.users[own.Site()];
    } else if Connects(st.secrets, pool.namespace, a.credentialSecretName, calls.adminGet, calls.connect) {
      var key := st.secrets[AppSecret(HolderIdentity(j))].privateKey.value;
      CleanedServesIff(st.users[a.Site()], st'.users[a.Site()], a, calls.revokes, calls.clear, key);
    }
  }

  /** The deletion neither marks nor removes a bound claim whose key, role or Secret it takes. */
  ghost predicate DeletionSpares(pool: Pool, st: Store, k: ClaimKey, c: Claim, e: DeletionEnv) {
    c.finalizer && c.status.leaseName != "" && AccountFor(pool, st.leases, c.status.leaseName).Some? ==>
      var a := AccountFor(pool, st.leases, c.status.leaseName).value;
      forall j | IsBound(st, j) && Robs(pool, st, k, c.status.leaseName, a, e.provider, j) ::
        j == k && Unbinds(st, k, c, e)
  }

  /** Every lease name a claim ever recorded is the name of a lease: leases are never removed. */
  predicate RecordsLease(leases: Leases, c: Claim) {
    c.status.leaseName == "" || c.status.leaseName in leases
  }

  /**
   * Whatever fails and however old the read is, a deletion keeps credential agreement if and
   * only if every bound claim it takes a key, a role or a Secret from is the one it marks
   * Releasing or removes.
   */
  lemma DeletionCredentialedIff(pool: Pool, st: Store, now: int, k: ClaimKey, c: Claim, e: DeletionEnv, st': Store)
    requires ValidConfig(pool.accounts) && LeasesSound(pool, st.leases, now) && ClaimsSound(st.leases.Keys, st.claims)
    requires Credentialed(pool, st) && PossibleClaimRead(st.claims, k, c) && RecordsLease(st.leases, c) && ValidKey(k)
    requires c.deleting && c.spec.typ == PROVIDER && DeletionEnd(pool, st, k, c, e, st')
    ensures Credentialed(pool, st') <==> DeletionSpares(pool, st, k, c, e)
  {
    hide LeasesSound, ValidConfig, ClaimsSound, Works, CleanedFor, Robs, LabelsKept;
    if !c.finalizer {
    } else if c.status.leaseName == "" {
      NothingRecorded(pool, st, now, k, c, e, st');
    } else {
      hide DeletionEnd;
      DeletionDoes(pool, st, now, k, c, e, st');
      DeletionUnbinds(pool, st, k, c, e, st');
      var name := c.status.leaseName;
      var a := AccountFor(pool, st.leases, name).value;
      forall j | IsBound(st, j) && (j != k || !Unbinds(st, k, c, e))
          ensures IsBound(st', j) && (Works(pool, st', j) <==> !Robs(pool, st, k, name, a, e.provider, j)) {
        CleanedWorksIff(pool, st, now, k, name, a, e.provider, st', j);
      }
    }
  }

  lemma NothingRecorded(pool: Pool, st: Store, now: int, k: ClaimKey, c: Claim, e: DeletionEnv, st': Store)
    requires ClaimsSound(st.leases.Keys, st.claims) && Credentialed(pool, st) && PossibleClaimRead(st.claims, k, c)
    requires c.deleting && c.finalizer && c.spec.typ == PROVIDER && c.status.leaseName == ""
    requires DeletionEnd(pool, st, k, c, e, st')
    ensures Credentialed(pool, st')
  {
    hide MarkClaims;
    MarkSound(st.leases.Keys, st.claims, k, c, e.statusOk);
    assert Quiet(st, st');
    QuietCredentialed(pool, st, st');
  }

  // Acquisitions.

  /**
   * Provisioning for `k` on the account of `name` replaces the key of `j` without its Secret, or
   * its Secret without the key.
   */
  predicate Disturbs(st: Store, k: ClaimKey, name: string, a: Account, calls: AcquireCalls, j: ClaimKey) {
    var stores := StoresSecret(st.secrets, HolderIdentity(k), a.credentialSecretName, a, calls);
    if Records(st, j, name) then SetsKey(st.secrets, HolderIdentity(k), a.credentialSecretName, a, calls)
        && !(j == k && stores)
    else j == k && stores
  }

  /** The claim's Secret holds this key. */
  predicate KeepsKey(st: Store, j: ClaimKey, key: Option<nat>) {
    var secret := AppSecret(HolderIdentity(j));
    secret in st.secrets && st.secrets[secret].privateKey == key
  }

  lemma ProvisionedElsewhereIff(pool: Pool, st: Store, now: int, k: ClaimKey, name: string, a: Account,
                                calls: AcquireCalls,
                                st': Store, j: ClaimKey)
    requires ValidConfig(pool.accounts) && LeasesSound(pool, st.leases, now) && ClaimsSound(st.leases.Keys, st.claims)
    requires name in st.leases && name != "" && AccountFor(pool, st.leases, name) == Some(a) && ValidKey(k)
    requires var st1 := AcquireResource(pool.accounts, st, ResourceOf(a), HolderIdentity(k), calls).0;
             st'.users == st1.users && st'.secrets == st1.secrets
    requires LabelsKept(st.leases, st'.leases)
    requires IsBound(st, j) && Works(pool, st, j) && j in st'.claims && st'.claims[j].status == st.claims[j].status
    requires !Records(st, j, name)
    ensures Works(pool, st', j) <==> (Disturbs(st, k, name, a, calls, j) ==> KeepsKey(st, j, calls.key))
  {
    hide AcquireResource, LeasesSound, ValidConfig, AccountFromUrl, AppSecret, HolderIdentity, ReachesUser, GrantsAll,
        Scrubbed, LeavesTraces, AccountIdentifier;
    AppSecretInjective(j, k);
    assert ClaimSound(st.leases.Keys, st.claims[j]);
    AcquireFrame(pool.accounts, st, ResourceOf(a), HolderIdentity(k), calls);
    AcquireExact(pool.accounts, st, ResourceOf(a), HolderIdentity(k), calls);
    var own := AccountFor(pool, st.leases, st.claims[j].status.leaseName).value;
    AccountsDiffer(pool, st.leases, now, st.claims[j].status.leaseName, name);
    assert own.Site() != a.Site() && st'.users[own.Site()] == st.users[own.Site()];
  }

  lemma ProvisionedHereIff(pool: Pool, st: Store, now: int, k: ClaimKey, name: string, a: Account, calls: AcquireCalls,
                           st': Store, j: ClaimKey)
    requires ValidConfig(pool.accounts) && LeasesSound(pool, st.leases, now) && ClaimsSound(st.leases.Keys, st.claims)
    requires name in st.leases && name != "" && AccountFor(pool, st.leases, name) == Some(a) && ValidKey(k)
    requires var st1 := AcquireResource(pool.accounts, st, ResourceOf(a), HolderIdentity(k), calls).0;
             st'.users == st1.users && st'.secrets == st1.secrets
    requires LabelsKept(st.leases, st'.leases)
    requires IsBound(st, j) && Works(pool, st, j) && j in st'.claims && st'.claims[j].status == st.claims[j].status
    requires Records(st, j, name)
    ensures Works(pool, st', j) <==> (Disturbs(st, k, name, a, calls, j) ==> KeepsKey(st, j, calls.key))
  {
    hide AcquireResource, LeasesSound, ValidConfig, AccountFromUrl, AppSecret, HolderIdentity, ReachesUser, GrantsAll,
        Scrubbed, LeavesTraces, AccountIdentifier;
    AppSecretInjective(j, k);
    assert ClaimSound(st.leases.Keys, st.claims[j]);
    AcquireFrame(pool.accounts, st, ResourceOf(a), HolderIdentity(k), calls);
    AcquireExact(pool.accounts, st, ResourceOf(a), HolderIdentity(k), calls);
  }

  lemma ProvisionedWorksIff(pool: Pool, st: Store, now: int, k: ClaimKey, name: string, a: Account, calls: AcquireCalls,
                            st': Store, j: ClaimKey)
    requires ValidConfig(pool.accounts) && LeasesSound(pool, st.leases, now) && ClaimsSound(st.leases.Keys, st.claims)
    requires name in st.leases && name != "" && AccountFor(pool, st.leases, name) == Some(a) && ValidKey(k)
    requires var st1 := AcquireResource(pool.accounts, st, ResourceOf(a), HolderIdentity(k), calls).0;
             st'.users == st1.users && st'.secrets == st1.secrets
    requires LabelsKept(st.leases, st'.leases)
    requires IsBound(st, j) && Works(pool, st, j) && j in st'.claims && st'.claims[j].status == st.claims[j].status
    ensures Works(pool, st', j) <==> (Disturbs(st, k, name, a, calls, j) ==> KeepsKey(st, j, calls.key))
  {
    hide AcquireResource, LeasesSound, ValidConfig, Works, Disturbs, KeepsKey, ClaimsSound, LabelsKept;
    if Records(st, j, name) {
      ProvisionedHereIff(pool, st, now, k, name, a, calls, st', j);
    } else {
      ProvisionedElsewhereIff(pool, st, now, k, name, a, calls, st', j);
    }
  }

  /** Binding makes the claim work. */
  lemma ProvisionWorks(pool: Pool, st: Store, k: ClaimKey, c: Claim, name: string, a: Account, clock: Clock,
                       e: AcquireEnv, st': Store)
    requires k in st.claims && c == st.claims[k] && c.status.phase != Bound
    requires name in st.leases && AccountFor(pool, st.leases, name) == Some(a)
    requires ProvisionEnd(pool, st, k, c, name, a, clock, e, st')
    ensures k in st'.claims && (st'.claims[k].status.phase == Bound ==> Works(pool, st', k))
  {
    hide SameElsewhere, AcquireResource, AccountFromUrl, AccountIdentifier;
    AcquireProvisions(pool.accounts, st, ResourceOf(a), HolderIdentity(k), e.provider);
    AcquireFrame(pool.accounts, st, ResourceOf(a), HolderIdentity(k), e.provider);
  }

  lemma TakenAccount(pool: Pool, st: Store, st1: Store, name: string)
    requires name in st.leases && OtherLeasesSame(st.leases, st1.leases, name)
        && st1.leases[name].labels == st.leases[name].labels
    ensures AccountFor(pool, st1.leases, name) == AccountFor(pool, st.leases, name) && LabelsKept(st.leases, st1.leases)
  {
  }

  /** Provisioning writes the app users, the Secrets and at most the status of its own claim. */
  lemma ProvisionDoes(pool: Pool, st: Store, k: ClaimKey, c: Claim, name: string, a: Account, clock: Clock,
                      e: AcquireEnv, st': Store)
    requires PossibleClaimRead(st.claims, k, c) && c.status.phase != Bound
    requires ProvisionEnd(pool, st, k, c, name, a, clock, e, st')
    ensures var st1 := AcquireResource(pool.accounts, st, ResourceOf(a), HolderIdentity(k), e.provider).0;
            st'.users == st1.users && st'.secrets == st1.secrets
    ensures LabelsKept(st.leases, st'.leases) && OnlyClaim(st.claims, st'.claims, k)
    ensures if IsCurrent(st.claims, k, c) then !IsBound(st, k) else st'.claims == st.claims
  {
    hide AcquireResource, AppSecret, HolderIdentity, AccountFromUrl, AccountIdentifier;
    Leasing.ReleaseEffect(st.leases, e.giveBack.read, e.giveBack.accepted);
  }

  /** No bound claim loses its key or its Secret to the acquisition, or only in exchange for the same key. */
  ghost predicate AcquireSpares(pool: Pool, st: Store, k: ClaimKey, name: string, a: Account, calls: AcquireCalls) {
    forall j | IsBound(st, j) && Disturbs(st, k, name, a, calls, j) :: KeepsKey(st, j, calls.key)
  }

  /**
   * A possibly failing acquisition, also one that starts from an old read, keeps credential
   * agreement iff it spares every bound claim.
   */
  lemma AcquireCredentialedIff(pool: Pool, st: Store, now: int, k: ClaimKey, e: Env, st': Store, name: string)
    requires ValidConfig(pool.accounts) && LeasesSound(pool, st.leases, now) && ClaimsSound(st.leases.Keys, st.claims)
    requires Credentialed(pool, st) && e.get.Got? && PossibleClaimRead(st.claims, k, e.get.claim) && ValidKey(k)
    requires AcquireEnd(pool, st, k, e, st') && Taken(pool, st, k, e) == Some(name)
    ensures AccountFor(pool, st.leases, name).Some?
    ensures Credentialed(pool, st')
       <==> AcquireSpares(pool, st, k, name, AccountFor(pool, st.leases, name).value, e.acquire.provider)
  {
    hide ProvisionEnd, LeasesSound, ValidConfig, ClaimsSound, Works, TakenLeases, Disturbs, KeepsKey, AcquireResource;
    var c, calls := e.get.claim, e.acquire.provider;
    var st1, a := st.(leases := TakenLeases(st, k, e)), AccountFor(pool, st.leases, name).value;
    TakenAccount(pool, st, st1, name);
    ProvisionDoes(pool, st1, k, c, name, a, e.clock, e.acquire, st');
    AcquireIgnoresLeases(pool.accounts, st, st1, ResourceOf(a), HolderIdentity(k), calls);
    if IsCurrent(st.claims, k, c) {
      ProvisionWorks(pool, st1, k, c, name, a, e.clock, e.acquire, st');
    }
    forall j | IsBound(st, j)
        ensures IsBound(st', j)
            && (Works(pool, st', j) <==> (Disturbs(st, k, name, a, calls, j) ==> KeepsKey(st, j, calls.key))) {
      ProvisionedWorksIff(pool, st, now, k, name, a, calls, st', j);
    }
  }

  lemma AcquireIgnoresLeases(accounts: seq<Account>, st: Store, st1: Store, r: Resource, claimName: string,
                             calls: AcquireCalls)
    requires st1 == st.(leases := st1.leases)
    ensures var a, b := AcquireResource(accounts, st, r, claimName, calls).0,
        AcquireResource(accounts, st1, r, claimName, calls).0;
            a.users == b.users && a.secrets == b.secrets
  {
    hide AccountFromUrl, AdminReady, AppSecret, GrantRoles, SetPublicKey;
  }

  /** Only claims changed, and none was bound. */
  ghost predicate Quiet(st: Store, st': Store) {
    && st' == st.(claims := st'.claims)
    && forall j | j in st'.claims && st'.claims[j].status.phase == Bound ::
        j in st.claims && st.claims[j].status == st'.claims[j].status
  }

  predicate PossiblyRead(st: Store, k: ClaimKey, e: Env) {
    e.get.Got? ==> PossibleClaimRead(st.claims, k, e.get.claim)
  }

  lemma WaitingQuiet(pool: Pool, st: Store, k: ClaimKey, e: Env, st': Store)
    requires PossiblyRead(st, k, e) && e.get.Got? && AcquireEnd(pool, st, k, e, st') && Taken(pool, st, k, e).None?
    ensures Quiet(st, st')
  {
    hide Taken, ProvisionEnd;
  }

  /** A reconciliation that neither deletes nor takes a lease touches only claims, and binds none. */
  lemma OtherwiseQuiet(pool: Pool, st: Store, k: ClaimKey, e: Env, st': Store)
    requires PossiblyRead(st, k, e) && ReconcileEnd(pool, st, k, e, st')
    requires Taken(pool, st, k, e).None?
    requires e.get.Got? && e.get.claim.deleting ==> e.get.claim.spec.typ != PROVIDER
    ensures Quiet(st, st')
  {
    hide Taken, DeletionEnd, AcquireEnd;
    if e.get.Got? {
      var c := e.get.claim;
      if c.spec.typ == PROVIDER && c.finalizer && c.status.phase != Bound {
        WaitingQuiet(pool, st, k, e, st');
      }
    }
  }

  /** A step that touches only claims and binds none keeps every bound claim working. */
  lemma QuietCredentialed(pool: Pool, st: Store, st': Store)
    requires Credentialed(pool, st) && Quiet(st, st')
    ensures Credentialed(pool, st')
  {
    forall j | j in st'.claims && st'.claims[j].status.phase == Bound ensures Works(pool, st', j) {
      assert Works(pool, st, j);
    }
  }

  /** The reconciliation takes no key, role or Secret from a claim that stays bound. */
  ghost predicate SparesCredentials(pool: Pool, st: Store, k: ClaimKey, e: Env) {
    if !e.get.Got? then true
    else if e.get.claim.spec.typ == PROVIDER && e.get.claim.deleting then
      DeletionSpares(pool, st, k, e.get.claim, e.deletion)
    else
      var taken := Taken(pool, st, k, e);
      taken.Some? && AccountFor(pool, st.leases, taken.value).Some? ==>
        AcquireSpares(pool, st, k, taken.value, AccountFor(pool, st.leases, taken.value).value, e.acquire.provider)
  }

  lemma EndCredentialedIff(pool: Pool, st: Store, now: int, k: ClaimKey, e: Env, st': Store)
    requires ValidConfig(pool.accounts) && LeasesSound(pool, st.leases, now) && ClaimsSound(st.leases.Keys, st.claims)
    requires Credentialed(pool, st) && PossiblyRead(st, k, e) && ValidKey(k)
    requires e.get.Got? ==> RecordsLease(st.leases, e.get.claim)
    requires ReconcileEnd(pool, st, k, e, st')
    ensures Credentialed(pool, st') <==> SparesCredentials(pool, st, k, e)
  {
    hide LeasesSound, ValidConfig, Works, DeletionEnd, AcquireEnd, Credentialed, ClaimsSound, DeletionSpares,
        AcquireSpares;
    if e.get.Got? && e.get.claim.spec.typ == PROVIDER && e.get.claim.deleting {
      DeletionCredentialedIff(pool, st, now, k, e.get.claim, e.deletion, st');
    } else if Taken(pool, st, k, e).Some? {
      AcquireCredentialedIff(pool, st, now, k, e, st', Taken(pool, st, k, e).value);
    } else {
      OtherwiseQuiet(pool, st, k, e, st');
      QuietCredentialed(pool, st, st');
    }
  }

  /**
   * Whatever fails and whichever past version of the claim it starts from, a reconciliation
   * keeps credential agreement if and only if it spares every claim that stays bound.
   */
  lemma ReconcileCredentialedIff(pool: Pool, st: Store, now: int, k: ClaimKey, e: Env)
    requires ValidConfig(pool.accounts) && LeasesSound(pool, st.leases, now) && ClaimsSound(st.leases.Keys, st.claims)
    requires Credentialed(pool, st) && Possible(pool, st, now, k, e) && ValidKey(k)
    requires e.get.Got? ==> RecordsLease(st.leases, e.get.claim)
    ensures Credentialed(pool, Reconcile(pool, st, k, e).0) <==> SparesCredentials(pool, st, k, e)
  {
    hide Reconcile, ReconcileEnd, SparesCredentials, Credentialed, LeasesSound, ClaimsSound, ValidConfig;
    ReconcileEnds(pool, st, now, k, e);
    EndCredentialedIff(pool, st, now, k, e, Reconcile(pool, st, k, e).0);
  }

  /** A deletion of a bound claim at least marks it Releasing, or removes it. */
  predicate MarksOrRemoves(st: Store, c: Claim, e: DeletionEnv) {
    c.status.phase == Bound ==> e.statusOk || (Frees(st, c, e) && e.finalizerOk)
  }

  predicate HalfDeletes(st: Store, e: Env) {
    && e.get.Got? && e.get.claim.spec.typ == PROVIDER && e.get.claim.deleting
    && !MarksOrRemoves(st, e.get.claim, e.deletion)
  }

  /**
   * From an exclusive state, a current read that does not overtake spares every claim if its
   * deletion marks or removes.
   */
  lemma ExclusiveSpares(pool: Pool, st: Store, k: ClaimKey, e: Env)
    requires ClaimsSound(st.leases.Keys, st.claims) && Exclusive(st) && CurrentRead(st, k, e)
    requires !Overtakes(pool, st, k, e) && !HalfDeletes(st, e)
    ensures SparesCredentials(pool, st, k, e) && (e.get.Got? ==> RecordsLease(st.leases, e.get.claim))
  {
    hide Taken, Withdraws, DropsSecret, StoresSecret, SetsKey, Lands;
    if e.get.Got? {
      var c := e.get.claim;
      assert ClaimSound(st.leases.Keys, c);
      if c.spec.typ == PROVIDER && c.deleting {
        forall j | c.status.leaseName != "" && Records(st, j, c.status.leaseName) ensures j == k {
          assert Records(st, k, c.status.leaseName);
          ExclusiveMeansUnshared(st, j, k, c.status.leaseName);
        }
      } else if Taken(pool, st, k, e).Some? {
        TakerIsUnbound(pool, st, k, e);
      }
    }
  }

  lemma TakerIsUnbound(pool: Pool, st: Store, k: ClaimKey, e: Env)
    requires CurrentRead(st, k, e) && Taken(pool, st, k, e).Some?
    ensures !IsBound(st, k)
  {
  }

  /**
   * A reconciliation starts from some version of the claim and spares every claim that stays
   * bound; a start after which the operator is up resets the bound claims.
   */
  ghost predicate Careful(pool: Pool, s: State, e: Event) {
    match e
    case Reconciled(k, env) =>
      && (env.get.Got? ==> RecordsLease(s.store.leases, env.get.claim))
      && SparesCredentials(pool, s.store, k, env)
    case Started(start, survives) =>
      survives ==> start.cleanup && start.claimsListed && start.claimsRefused == {}
    case _ => true
  }

  /** Disciplined steps whose deletions mark or remove their bound claims are careful. */
  lemma DisciplinedIsCareful(pool: Pool, s: State, e: Event)
    requires Sound(pool, s) && Exclusive(s.store) && Disciplined(pool, s, e)
    requires e.Reconciled? ==> !HalfDeletes(s.store, e.env)
    ensures Careful(pool, s, e)
  {
    hide Exclusive, SparesCredentials, Overtakes, HalfDeletes, LeasesSound;
    if e.Reconciled? {
      ExclusiveSpares(pool, s.store, e.k, e.env);
    }
  }

  lemma UserStepCredentialed(pool: Pool, s: State, e: Event)
    requires Sound(pool, s) && Allowed(pool, s, e) && Credentialed(pool, s.store)
    requires e.Tick? || e.UserCreate? || e.UserDelete? || e.UserSecret?
    ensures Credentialed(pool, Next(pool, s, e).store)
  {
    hide AppSecret, HolderIdentity, LeasesSound;
    var st' := Next(pool, s, e).store;
    forall j | j in st'.claims && st'.claims[j].status.phase == Bound ensures Works(pool, st', j) {
      assert j in s.store.claims && st'.claims[j].status == s.store.claims[j].status;
      AppSecretInjective(j, j);
      WorksFrame(pool, s.store, st', j);
    }
  }

  lemma StepCredentialed(pool: Pool, s: State, e: Event)
    requires ValidConfig(pool.accounts) && Sound(pool, s) && Allowed(pool, s, e) && Careful(pool, s, e)
    requires s.up ==> Credentialed(pool, s.store)
    ensures var s' := Next(pool, s, e); s'.up ==> Credentialed(pool, s'.store)
  {
    hide Start, SparesCredentials, Credentialed, LeasesSound, ValidConfig, Reconcile;
    match e
    case Reconciled(k, env) =>
      ReconcileCredentialedIff(pool, s.store, s.now, k, env);
    case Started(start, survives) =>
      if survives {
        StartUnbinds(pool, s, start);
      }
    case Crashed(k, env) =>
    case _ =>
      if s.up {
        UserStepCredentialed(pool, s, e);
      }
  }

  lemma StartUnbinds(pool: Pool, s: State, start: StartEnv)
    requires start.cleanup && start.claimsListed && start.claimsRefused == {}
    ensures var (st', ok) := Start(pool, s.store, start); ok ==> Credentialed(pool, st')
  {
  }

  /** Credential agreement over every run of careful steps. */
  lemma {:induction false} RunCredentialed(pool: Pool, ss: seq<State>, es: seq<Event>, i: nat)
    requires ValidConfig(pool.accounts) && IsRun(pool, ss, es) && i < |ss|
    requires forall m | 0 <= m < |es| :: Careful(pool, ss[m], es[m])
    ensures ss[i].up ==> Credentialed(pool, ss[i].store)
  {
    if i > 0 {
      RunCredentialed(pool, ss, es, i - 1);
      RunSound(pool, ss, es, i - 1);
      StepCredentialed(pool, ss[i - 1], es[i - 1]);
    }
  }

  /** On disciplined runs whose deletions mark or remove their bound claims, both guarantees hold. */
  lemma {:induction false} RunDisciplinedCredentialed(pool: Pool, ss: seq<State>, es: seq<Event>, i: nat)
    requires ValidConfig(pool.accounts) && IsDisciplinedRun(pool, ss, es) && i < |ss|
    requires forall m | 0 <= m < |es| && es[m].Reconciled? :: !HalfDeletes(ss[m].store, es[m].env)
    ensures ss[i].up ==> Exclusive(ss[i].store) && Credentialed(pool, ss[i].store)
  {
    if i > 0 {
      RunDisciplinedCredentialed(pool, ss, es, i - 1);
      RunSound(pool, ss, es, i - 1);
      StepExclusive(pool, ss[i - 1], es[i - 1]);
      DisciplinedStep(pool, ss[i - 1], es[i - 1]);
    }
  }

  lemma DisciplinedStep(pool: Pool, s: State, e: Event)
    requires ValidConfig(pool.accounts) && Sound(pool, s) && Allowed(pool, s, e) && Disciplined(pool, s, e)
    requires e.Reconciled? ==> !HalfDeletes(s.store, e.env)
    requires s.up ==> Exclusive(s.store) && Credentialed(pool, s.store)
    ensures var s' := Next(pool, s, e); s'.up ==> Credentialed(pool, s'.store)
  {
    hide Exclusive, Credentialed, LeasesSound, ClaimsSound, ValidConfig, Next, SparesCredentials, HalfDeletes,
        Overtakes;
    if s.up {
      DisciplinedIsCareful(pool, s, e);
    }
    StepCredentialed(pool, s, e);
  }

  /**
   * Provisioning or cleaning up for one claim never touches the Secret of another, whichever
   * account, store or outcome of the calls is involved.
   */
  lemma SecretsStayApart(accounts: seq<Account>, st: Store, r: Resource, ns: string, k: ClaimKey, j: ClaimKey,
                         acquire: AcquireCalls, release: ReleaseCalls)
    requires ValidKey(k) && ValidKey(j) && j != k
    ensures var key := AppSecret(HolderIdentity(j));
            var st' := AcquireResource(accounts, st, r, HolderIdentity(k), acquire).0;
            (key in st'.secrets <==> key in st.secrets) && (key in st.secrets ==> st'.secrets[key] == st.secrets[key])
    ensures var key := AppSecret(HolderIdentity(j));
            var st' := ReleaseResource(accounts, st, ns, r, HolderIdentity(k), release).0;
            (key in st'.secrets <==> key in st.secrets) && (key in st.secrets ==> st'.secrets[key] == st.secrets[key])
  {
    hide AcquireResource, ReleaseResource, AppSecret, HolderIdentity;
    AppSecretInjective(j, k);
    if FindAccount(accounts, r.name).Some? {
      AcquireFrame(accounts, st, r, HolderIdentity(k), acquire);
      Snowflake.ReleaseEffect(accounts, st, ns, r, HolderIdentity(k), release);
    } else {
      UnknownResource(accounts, st, ns, r, HolderIdentity(k), acquire, release);
    }
  }

  lemma UnknownResource(accounts: seq<Account>, st: Store, ns: string, r: Resource, claimName: string,
                        acquire: AcquireCalls, release: ReleaseCalls)
    requires FindAccount(accounts, r.name).None?
    ensures AcquireResource(accounts, st, r, claimName, acquire) == (st, None)
    ensures ReleaseResource(accounts, st, ns, r, claimName, release) == (st, false)
  {
  }

  /**
   * After a successful acquisition the connection details cannot be missing, even though the
   * reconciler has replaced the resource's Secret by then, and they lead to the account on
   * which the claim's key now logs in with every configured role.
   */
  lemma AcquiredIsConnectable(accounts: seq<Account>, st: Store, r: Resource, claimName: string, calls: AcquireCalls)
    requires AcquireResource(accounts, st, r, claimName, calls).1.Some?
    ensures var (st', secret) := AcquireResource(accounts, st, r, claimName, calls);
            var details := GetConnectionDetails(accounts, r.(credentialSecretName := secret.value));
            && details.Some?
            && exists a :: a in accounts && a.name == r.name && details.value == ConnectionOf(a)
                        && calls.key.Some? && Provisioned(st', a, claimName, calls.key.value)
  {
    hide AcquireResource;
    if FindAccount(accounts, r.name).None? {
      var none := ReleaseCalls(false, false, false, [], [], false);
      UnknownResource(accounts, st, "", r, claimName, calls, none);
    } else {
      AcquireProvisions(accounts, st, r, claimName, calls);
      assert AccountOf(accounts, r) in accounts;
    }
  }
}
