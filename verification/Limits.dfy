/**
 * Where the guarantees end: for each condition of the other modules a possible reconciliation
 * or start that violates it and breaks the guarantee.
 */
module Limits {
  import opened Wrappers
  import opened Objects
  import opened Names
  import opened LeaseRules
  import opened Stores
  import opened Accounts
  import opened Leasing
  import opened Snowflake
  import opened Reconciling
  import opened Steps
  import opened Lifecycle
  import opened Exclusivity
  import opened Credentials
  import opened Scrubbing
  import opened Starting
  import Conservation

  /**
   * A claim bound at `bind` on a lease stamped at `stamp` leaves an instant at which the lease
   * reads as free while the claim has not expired, exactly when the lease's stored window ends
   * before the claim's stored deadline.
   */
  lemma OvertakingWindowIff(holder: string, stamp: int, bind: int, duration: int)
    ensures (exists t :: IsFree(Held(holder, stamp, duration), t) && t <= StoredSecond(Deadline(bind, duration)))
       <==> Window(Held(holder, stamp, duration)) < StoredSecond(Deadline(bind, duration))
  {
    var d := StoredSecond(Deadline(bind, duration));
    if Window(Held(holder, stamp, duration)) < d {
      assert IsFree(Held(holder, stamp, duration), d) && d <= d;
    }
  }

  /** A reconciliation in which the claim, read as `c`, takes the free lease `name`, and a later release of it lands. */
  lemma TakingEnv(pool: Pool, st: Store, now: int, k: ClaimKey, c: Claim, name: string, calls: AcquireCalls,
                  statusOk: bool)
    returns (e: Env)
    requires ValidConfig(pool.accounts) && LeasesSound(pool, st.leases, now) && PossibleClaimRead(st.claims, k, c)
    requires name in st.leases && IsFree(st.leases[name].spec, now)
    requires Includes(st.leases[name].labels, c.spec.requiredLabels)
    requires c.spec.typ == PROVIDER && !c.deleting && c.finalizer && c.status.phase != Bound
    ensures Possible(pool, st, now, k, e) && e.get == Got(c) && Taken(pool, st, k, e) == Some(name)
    ensures e.acquire.provider == calls && e.acquire.statusOk == statusOk
    ensures Lands(TakenLeases(st, k, e), e.acquire.giveBack)
  {
    hide LeaseSound, ValidConfig, FindFree;
    var l := st.leases[name];
    assert l.name == name;
    var taken := Take(st.leases, Some(l), HolderIdentity(k), DurationOf(c), now, now, true).0;
    var acquire := AcquireEnv(Some([Seen(l, now)]), Some(l), true, calls, statusOk,
        ReleaseCall(Some(taken[name]), true));
    var deletion := DeletionEnv(true, ReleaseCalls(true, true, true, [], [], true), ReleaseCall(None, true), true);
    e := Env(Got(c), Clock(now, now, now, now, now), true, true, true, acquire, deletion);
    FoundAlone(pool, st, now, l, c.spec.requiredLabels);
    LookupsAgree(pool.accounts, LabelledResource(l));
    assert LeaseSoundFor(pool, l) by { SoundFor(pool, st.leases, now, name); }
  }

  /** A deletion of the stored claim `k` with the given outcomes, whose lease release lands if it is accepted. */
  lemma DeletionEnvFor(pool: Pool, st: Store, now: int, k: ClaimKey, calls: ReleaseCalls, statusOk: bool,
                       released: bool)
    returns (e: Env)
    requires LeasesSound(pool, st.leases, now) && k in st.claims && st.claims[k].status.leaseName in st.leases
    requires st.claims[k].spec.typ == PROVIDER && st.claims[k].deleting
    ensures Possible(pool, st, now, k, e) && e.get == Got(st.claims[k])
    ensures e.deletion.provider == calls && e.deletion.statusOk == statusOk
    ensures Lands(st.leases, e.deletion.release) <==> released
  {
    hide LeaseSound;
    var name := st.claims[k].status.leaseName;
    assert st.leases[name].name == name;
    var none := AcquireCalls(true, true, true, [], None, true, true, true, true);
    var acquire := AcquireEnv(None, None, true, none, true, ReleaseCall(None, true));
    var deletion := DeletionEnv(statusOk, calls, ReleaseCall(Some(st.leases[name]), released), true);
    e := Env(Got(st.claims[k]), Clock(now, now, now, now, now), true, true, true, acquire, deletion);
  }

  // Exclusivity.

  /**
   * In that window overtaking does happen: if a recorded lease reads as free and carries the
   * labels another waiting claim requires, some reconciliation of that claim takes it and
   * exclusivity is gone.
   */
  lemma OvertakingHappens(pool: Pool, st: Store, now: int, j: ClaimKey, k: ClaimKey, name: string) returns (e: Env)
    requires ValidConfig(pool.accounts) && LeasesSound(pool, st.leases, now)
        && ClaimsSound(st.leases.Keys, st.claims) && Exclusive(st)
    requires Records(st, j, name) && IsFree(st.leases[name].spec, now)
    requires k in st.claims && Includes(st.leases[name].labels, st.claims[k].spec.requiredLabels)
    requires var c := st.claims[k]; c.spec.typ == PROVIDER && !c.deleting && c.finalizer && c.status.phase != Bound
    ensures Possible(pool, st, now, k, e) && CurrentRead(st, k, e)
    ensures Overtakes(pool, st, k, e) && !Exclusive(Reconcile(pool, st, k, e).0)
  {
    hide LeaseSound, ClaimsSound, Reconcile, Exclusive, Taken, Possible;
    assert name in st.leases by {
      assert Holds(st, j, name) by { HoldsRecorded(st, j, name); }
    }
    var calls := AcquireCalls(true, true, true, [], Some(0), true, true, true, true);
    e := TakingEnv(pool, st, now, k, st.claims[k], name, calls, true);
    ReconcileExclusiveIff(pool, st, now, k, e);
  }

  lemma HoldsRecorded(st: Store, j: ClaimKey, name: string)
    requires Exclusive(st) && Records(st, j, name)
    ensures Holds(st, j, name)
  {
  }

  ghost predicate LeaseSoundFor(pool: Pool, l: Lease) {
    FindAccount(pool.accounts, LabelledResource(l)).Some?
  }

  lemma SoundFor(pool: Pool, leases: Leases, now: int, name: string)
    requires LeasesSound(pool, leases, now) && name in leases
    ensures LeaseSoundFor(pool, leases[name])
  {
    assert LeaseSound(pool, leases[name], now);
  }

  lemma FoundAlone(pool: Pool, st: Store, now: int, l: Lease, required: map<string, string>)
    requires ValidConfig(pool.accounts) && LeasesSound(pool, st.leases, now) && l.name in st.leases
        && l == st.leases[l.name]
    requires IsFree(l.spec, now) && Includes(l.labels, required)
    ensures FindFree(Some([Seen(l, now)]), PROVIDER, required) == Some(l)
  {
    hide LeasesSound, ValidConfig, ProviderSelector;
    Conservation.SoundIsManaged(pool, st.leases, now, l.name);
    assert Select([Seen(l, now)], ProviderSelector(PROVIDER)) == [Seen(l, now)];
  }

  // Working credentials.

  /** An earlier version of the stored claim `k`, from before it was bound. */
  predicate BeforeBinding(st: Store, k: ClaimKey, c: Claim) {
    && k in st.claims && c.uid == st.claims[k].uid && c.gen < st.claims[k].gen && c.spec == st.claims[k].spec
    && c.finalizer && !c.deleting && c.status.phase != Bound && c.status.leaseName == ""
  }

  /**
   * Credential agreement needs a claim read that is not too old: a reconciliation that still
   * sees a bound claim as unbound takes a second lease, provisions it with a new key, replaces
   * the key in the claim's Secret and loses its status write. The claim stays bound to the
   * first account with a key that does not work there.
   */
  lemma StaleReadBreaksCredentials(pool: Pool, st: Store, now: int, k: ClaimKey, c: Claim, name: string)
    returns (e: Env)
    requires ValidConfig(pool.accounts) && LeasesSound(pool, st.leases, now)
        && ClaimsSound(st.leases.Keys, st.claims) && Credentialed(pool, st)
    requires IsBound(st, k) && BeforeBinding(st, k, c)
    requires name in st.leases && name != "" && name != st.claims[k].status.leaseName
        && IsFree(st.leases[name].spec, now)
    requires Includes(st.leases[name].labels, c.spec.requiredLabels)
    requires forall a | a in pool.accounts :: AdminReady(st.secrets, k.ns, a.credentialSecretName)
    ensures Possible(pool, st, now, k, e) && e.get == Got(c)
    ensures !Credentialed(pool, Reconcile(pool, st, k, e).0)
  {
    hide LeasesSound, Reconcile, Taken, Possible, LeaseName, HolderIdentity, AppSecret, AccountFromUrl, AdminReady,
        ValidConfig, IsFree, TakenLeases;
    assert ClaimSound(st.leases.Keys, st.claims[k]) && Works(pool, st, k);
    var own := st.secrets[AppSecret(HolderIdentity(k))].privateKey.value;
    var calls := AcquireCalls(true, true, true, [], Some(own + 1), true, true, true, true);
    e := TakingEnv(pool, st, now, k, c, name, calls, true);
    ClaimNamespace(k);
    SoundAccount(pool, st.leases, now, name);
    var a := AccountFor(pool, st.leases, name).value;
    assert Disturbs(st, k, name, a, calls, k) && !KeepsKey(st, k, calls.key);
    ReconcileCredentialedIff(pool, st, now, k, e);
  }

  /**
   * A deletion that cannot mark its bound claim, withdraws its key and then cannot free its
   * lease leaves the claim bound without working credentials.
   */
  lemma UnmarkedDeletionBreaksCredentials(pool: Pool, st: Store, now: int, k: ClaimKey) returns (e: Env)
    requires ValidConfig(pool.accounts) && LeasesSound(pool, st.leases, now)
        && ClaimsSound(st.leases.Keys, st.claims) && Credentialed(pool, st)
    requires IsBound(st, k) && st.claims[k].deleting
    requires forall a | a in pool.accounts :: AdminReady(st.secrets, pool.namespace, a.credentialSecretName)
    ensures Possible(pool, st, now, k, e) && CurrentRead(st, k, e)
    ensures !Credentialed(pool, Reconcile(pool, st, k, e).0)
  {
    hide LeasesSound, Reconcile, Possible, LeaseName, HolderIdentity, AppSecret, AccountFromUrl, AdminReady,
        ValidConfig, Lands, Works;
    assert ClaimSound(st.leases.Keys, st.claims[k]);
    var calls := ReleaseCalls(true, true, true, [], [], true);
    e := DeletionEnvFor(pool, st, now, k, calls, false, false);
    var name := st.claims[k].status.leaseName;
    SoundAccount(pool, st.leases, now, name);
    assert Robs(pool, st, k, name, AccountFor(pool, st.leases, name).value, calls, k);
    ReconcileCredentialedIff(pool, st, now, k, e);
  }

  // Scrubbed before free.

  /** A waiting claim and a free lease it may have, on an account its namespace has the admin Secret for. */
  ghost predicate CanTake(pool: Pool, st: Store, now: int, k: ClaimKey, name: string) {
    && k in st.claims && name in st.leases && IsFree(st.leases[name].spec, now)
    && Includes(st.leases[name].labels, st.claims[k].spec.requiredLabels)
    && st.claims[k].spec.typ == PROVIDER && !st.claims[k].deleting && st.claims[k].finalizer
    && st.claims[k].status.phase != Bound
    && forall a | a in pool.accounts :: AdminReady(st.secrets, k.ns, a.credentialSecretName)
  }

  lemma GivenUpEscapes(pool: Pool, st: Store, now: int, k: ClaimKey, name: string, calls: AcquireCalls, statusOk: bool)
    returns (e: Env)
    requires ValidConfig(pool.accounts) && LeasesSound(pool, st.leases, now)
        && ClaimsSound(st.leases.Keys, st.claims) && IdleIsScrubbed(pool, st) && CanTake(pool, st, now, k, name)
    requires calls.adminGet && calls.connect && calls.ensure && calls.grants == [] && calls.key.Some? && calls.setKey
    requires !calls.secretWrite || !statusOk
    ensures Possible(pool, st, now, k, e) && CurrentRead(st, k, e)
    ensures e.acquire.provider == calls && e.acquire.statusOk == statusOk
    ensures !IdleIsScrubbed(pool, Reconcile(pool, st, k, e).0)
  {
    hide LeasesSound, Reconcile, Taken, Possible, LeaseName, HolderIdentity, AppSecret, AccountFromUrl, AdminReady,
        ValidConfig, IsFree, TakenLeases, Lands, Scrubbed, IdleIsScrubbed;
    assert ClaimSound(st.leases.Keys, st.claims[k]);
    e := TakingEnv(pool, st, now, k, st.claims[k], name, calls, statusOk);
    ClaimNamespace(k);
    SoundAccount(pool, st.leases, now, name);
    ReconcileScrubsIff(pool, st, now, k, e);
  }

  /** Provisioning that fails after the key is set gives the lease back with the key still on the account. */
  lemma FailedProvisioningEscapes(pool: Pool, st: Store, now: int, k: ClaimKey, name: string) returns (e: Env)
    requires ValidConfig(pool.accounts) && LeasesSound(pool, st.leases, now)
        && ClaimsSound(st.leases.Keys, st.claims) && IdleIsScrubbed(pool, st) && CanTake(pool, st, now, k, name)
    ensures Possible(pool, st, now, k, e) && CurrentRead(st, k, e) && !e.acquire.provider.secretWrite
    ensures !IdleIsScrubbed(pool, Reconcile(pool, st, k, e).0)
  {
    hide IdleIsScrubbed, Possible, Reconcile, LeasesSound, ClaimsSound, ValidConfig, CanTake;
    e := GivenUpEscapes(pool, st, now, k, name, AcquireCalls(true, true, true, [], Some(0), true, true, true, false),
        true);
  }

  /** A binding whose status write is refused does the same after complete provisioning. */
  lemma LostBindingEscapes(pool: Pool, st: Store, now: int, k: ClaimKey, name: string) returns (e: Env)
    requires ValidConfig(pool.accounts) && LeasesSound(pool, st.leases, now)
        && ClaimsSound(st.leases.Keys, st.claims) && IdleIsScrubbed(pool, st) && CanTake(pool, st, now, k, name)
    ensures Possible(pool, st, now, k, e) && CurrentRead(st, k, e) && !e.acquire.statusOk
    ensures !IdleIsScrubbed(pool, Reconcile(pool, st, k, e).0)
  {
    hide IdleIsScrubbed, Possible, Reconcile, LeasesSound, ClaimsSound, ValidConfig, CanTake;
    e := GivenUpEscapes(pool, st, now, k, name, AcquireCalls(true, true, true, [], Some(0), true, true, true, true),
        false);
  }

  /** A deletion whose cleanup cannot read the admin Secret goes on and frees the lease of an account in use. */
  lemma FailedReleaseEscapes(pool: Pool, st: Store, now: int, k: ClaimKey) returns (e: Env)
    requires ValidConfig(pool.accounts) && LeasesSound(pool, st.leases, now)
        && ClaimsSound(st.leases.Keys, st.claims) && IdleIsScrubbed(pool, st)
    requires k in st.claims && st.claims[k].deleting && st.claims[k].status.leaseName in st.leases
        && st.claims[k].status.leaseName != "" && st.claims[k].spec.typ == PROVIDER
    requires AccountFor(pool, st.leases, st.claims[k].status.leaseName).Some?
        && !Scrubbed(st.users, AccountFor(pool, st.leases, st.claims[k].status.leaseName).value)
    ensures Possible(pool, st, now, k, e) && CurrentRead(st, k, e) && !e.deletion.provider.adminGet
    ensures !IdleIsScrubbed(pool, Reconcile(pool, st, k, e).0)
  {
    hide LeasesSound, Reconcile, Possible, LeaseName, AccountFromUrl, AdminReady, ValidConfig, Lands, Scrubbed,
        IdleIsScrubbed;
    assert ClaimSound(st.leases.Keys, st.claims[k]);
    e := DeletionEnvFor(pool, st, now, k, ReleaseCalls(false, true, true, [], [], true), true, true);
    ReconcileScrubsIff(pool, st, now, k, e);
  }

  /** A start that cannot read the admin Secret of one account skips it and frees its lease all the same. */
  lemma SkippedAccountEscapes(pool: Pool, st: Store, now: int, a: Account) returns (start: StartEnv)
    requires ValidConfig(pool.accounts) && LeasesSound(pool, st.leases, now) && IdleIsScrubbed(pool, st)
    requires Primary(pool, a) && !Idle(st, a) && !Scrubbed(st.users, a)
    ensures Start(pool, st, start).1 && !IdleIsScrubbed(pool, Start(pool, st, start).0)
    ensures forall i | 0 <= i < |pool.accounts| && pool.accounts[i].Site() != a.Site() ::
              CallsAt(start.provider.accounts, i) == ALL_OK
  {
    hide LeasesSound, LeaseName, AdminReady, ValidConfig, IdleIsScrubbed, Cleanup, AccountFromUrl;
    var skip := ScrubCalls(false, true, [], []);
    var calls := seq(|pool.accounts|, i requires 0 <= i < |pool.accounts| =>
      if pool.accounts[i].Site() == a.Site() then skip else ALL_OK);
    start := StartEnv([], true, CleanupCalls(calls, true, {}), true, {}, true, {});
    assert !CleanupSuffices(pool, st, start, a);
    assert FreesAtStart(st, start, a);
    StartScrubsIff(pool, st, now, start);
    InitializeGrows(pool, st.leases, 0, start.creates);
  }

  // Deletion of an expired claim.

  /** Another incarnation of the claim is marked for deletion or removed. */
  predicate HitsAnother(st: Store, st': Store, k: ClaimKey, c: Claim) {
    && k in st.claims && st.claims[k].uid != c.uid && !st.claims[k].deleting
    && (k !in st'.claims || st'.claims[k].deleting)
  }

  /** The reconciliation sees an expired bound claim, and its deletion is accepted. */
  predicate Expires(e: Env) {
    && e.get.Got? && e.deleteOk
    && var c := e.get.claim;
       && c.spec.typ == PROVIDER && !c.deleting && c.finalizer && c.status.phase == Bound
       && c.status.expiresAt.Some? && e.clock.expiry > c.status.expiresAt.value
  }

  /**
   * An expired claim is deleted by name, so a reconciliation hits another incarnation exactly
   * when it reads an expired claim whose name has a newer owner that is not yet being deleted.
   * No other write can: they are all checked against the version that was read.
   */
  lemma HitsAnotherIff(pool: Pool, st: Store, now: int, k: ClaimKey, e: Env)
    requires LeasesSound(pool, st.leases, now) && Possible(pool, st, now, k, e) && e.get.Got?
    ensures HitsAnother(st, Reconcile(pool, st, k, e).0, k, e.get.claim)
       <==> Expires(e) && k in st.claims && st.claims[k].uid != e.get.claim.uid && !st.claims[k].deleting
  {
    hide Reconcile, LeasesSound;
    ReconcileEnds(pool, st, now, k, e);
    EndHitsAnother(pool, st, k, e, Reconcile(pool, st, k, e).0);
  }

  lemma OldDeletionWritesNothing(pool: Pool, st: Store, k: ClaimKey, c: Claim, e: DeletionEnv, st': Store)
    requires !IsCurrent(st.claims, k, c) && DeletionEnd(pool, st, k, c, e, st')
    ensures st'.claims == st.claims
  {
    hide ReleaseRecorded, Release;
  }

  lemma OldAcquisitionWritesNothing(pool: Pool, st: Store, k: ClaimKey, e: Env, st': Store)
    requires e.get.Got? && !IsCurrent(st.claims, k, e.get.claim) && AcquireEnd(pool, st, k, e, st')
    ensures st'.claims == st.claims
  {
    hide Taken, AcquireResource, Release, TakenLeases, AccountFromUrl, AccountIdentifier, HolderIdentity, AppSecret;
  }

  lemma EndHitsAnother(pool: Pool, st: Store, k: ClaimKey, e: Env, st': Store)
    requires e.get.Got? && ReconcileEnd(pool, st, k, e, st')
    ensures HitsAnother(st, st', k, e.get.claim)
       <==> Expires(e) && k in st.claims && st.claims[k].uid != e.get.claim.uid && !st.claims[k].deleting
  {
    hide DeletionEnd, AcquireEnd;
    var c := e.get.claim;
    if !IsCurrent(st.claims, k, c) && c.spec.typ == PROVIDER {
      if c.deleting {
        OldDeletionWritesNothing(pool, st, k, c, e.deletion, st');
      } else if c.finalizer && c.status.phase != Bound {
        OldAcquisitionWritesNothing(pool, st, k, e, st');
      }
    }
  }

  /** An old read of an expired claim deletes a claim of the same name that was created since. */
  lemma OldReadDeletesNewerClaim(pool: Pool, st: Store, now: int, k: ClaimKey, c: Claim) returns (e: Env)
    requires LeasesSound(pool, st.leases, now)
    requires k in st.claims && c.uid < st.claims[k].uid && !st.claims[k].deleting
    requires c.spec.typ == PROVIDER && !c.deleting && c.finalizer && c.status.phase == Bound
    requires c.status.expiresAt.Some? && now > c.status.expiresAt.value
    ensures Possible(pool, st, now, k, e) && e.get == Got(c)
    ensures HitsAnother(st, Reconcile(pool, st, k, e).0, k, c)
  {
    hide Reconcile, LeasesSound;
    var none := AcquireCalls(true, true, true, [], None, true, true, true, true);
    var acquire := AcquireEnv(None, None, true, none, true, ReleaseCall(None, true));
    var deletion := DeletionEnv(true, ReleaseCalls(true, true, true, [], [], true), ReleaseCall(None, true), true);
    e := Env(Got(c), Clock(now, now, now, now, now), true, true, true, acquire, deletion);
    HitsAnotherIff(pool, st, now, k, e);
  }
}
