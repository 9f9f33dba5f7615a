/**
 * The possible ends of one reconciliation, stated on the store before and after it. The
 * invariants are proved from these relations; `ReconcileEnds` shows that the reconciler has
 * no other end.
 */
module Steps {
  import opened Wrappers
  import opened Objects
  import opened Names
  import opened LeaseRules
  import opened Stores
  import opened Registry
  import opened Accounts
  import opened Leasing
  import opened Snowflake
  import opened Reconciling

  /** The account a lease stands for. */
  function AccountIndex(pool: Pool, l: Lease): Option<nat> {
    FindAccount(pool.accounts, LabelledResource(l))
  }

  /** The lease was created for a configured account and records a holder completely or not at all. */
  ghost predicate LeaseSound(pool: Pool, l: Lease, now: int) {
    && AccountIndex(pool, l).Some?
    && l.name == LeaseName(PROVIDER, LabelledResource(l))
    && l.labels == LeaseLabels(PROVIDER, ResourcesOf(pool.accounts)[AccountIndex(pool, l).value])
    && AllOrNone(l.spec)
    && (l.spec.acquireTime.Some? ==> l.spec.acquireTime.value <= now)
  }

  ghost predicate LeasesSound(pool: Pool, leases: Leases, now: int) {
    forall n | n in leases :: leases[n].name == n && LeaseSound(pool, leases[n], now)
  }

  /** The account behind a lease of the store. */
  function AccountFor(pool: Pool, leases: Leases, name: string): Option<Account> {
    if name !in leases then None
    else
      var i := AccountIndex(pool, leases[name]);
      if i.None? then None else Some(pool.accounts[i.value])
  }

  /** The claim as it is written when it is bound to the lease `name` of account `a`. */
  function BoundClaim(k: ClaimKey, c: Claim, name: string, a: Account, clock: Clock): Claim {
    c.(status := BoundStatus(c, name, clock.bind, ConnectionOf(a), AppSecret(HolderIdentity(k)).name))
  }

  /**
   * Once the lease is taken: provisioning fails, or the claim is bound, or its status write is
   * lost; only a bound claim keeps the lease.
   */
  ghost predicate ProvisionEnd(pool: Pool, st: Store, k: ClaimKey, c: Claim, name: string, a: Account, clock: Clock,
                               e: AcquireEnv, st': Store)
  {
    var (st1, secret) := AcquireResource(pool.accounts, st, ResourceOf(a), HolderIdentity(k), e.provider);
    var (bound, ok) := UpdateStatus(st.claims, k, BoundClaim(k, c, name, a, clock), e.statusOk);
    && st'.users == st1.users && st'.secrets == st1.secrets
    && st'.claims == (if secret.None? then UpdateStatus(st.claims, k, WithPhase(c, Failed), e.statusOk).0 else bound)
    && st'.leases == (if secret.None? || !ok then Release(st.leases, e.giveBack.read, e.giveBack.accepted).0
        else st.leases)
  }

  lemma ProvisionEnds(pool: Pool, st: Store, k: ClaimKey, c: Claim, name: string, r: Resource, clock: Clock,
                      e: AcquireEnv)
    requires FindAccount(pool.accounts, r.name).Some?
    requires r == ResourceOf(pool.accounts[FindAccount(pool.accounts, r.name).value])
    ensures ProvisionEnd(pool, st, k, c, name, pool.accounts[FindAccount(pool.accounts, r.name).value], clock, e,
                         ProvisionClaim(pool, st, k, c, name, r, clock, e).0)
  {
    AcquireFrame(pool.accounts, st, r, HolderIdentity(k), e.provider);
    assert |AppSecret(HolderIdentity(k)).name| >= |SECRET_PREFIX| > 0;
  }

  /** The leases after a successful acquisition. */
  function TakenLeases(st: Store, k: ClaimKey, e: Env): Leases
    requires e.get.Got?
  {
    Take(st.leases, e.acquire.read, HolderIdentity(k), DurationOf(e.get.claim), e.clock.check, e.clock.stamp,
        e.acquire.takeOk).0
  }

  /** An acquisition that takes no lease only writes a phase; otherwise it provisions the free lease it took. */
  ghost predicate AcquireEnd(pool: Pool, st: Store, k: ClaimKey, e: Env, st': Store)
    requires e.get.Got?
  {
    var c := e.get.claim;
    match Taken(pool, st, k, e)
    case None =>
      var phase := if FindFree(e.acquire.view, c.spec.typ, c.spec.requiredLabels).None? then Pending else Failed;
      st' == WritePhase(st, k, c, phase, e.acquire.statusOk).0
    case Some(name) =>
      && name in st.leases && name != "" && IsFree(st.leases[name].spec, e.clock.check)
      && OtherLeasesSame(st.leases, TakenLeases(st, k, e), name)
      && TakenLeases(st, k, e)[name].spec == Held(HolderIdentity(k), e.clock.stamp, DurationOf(c))
      && TakenLeases(st, k, e)[name].name == st.leases[name].name
      && TakenLeases(st, k, e)[name].labels == st.leases[name].labels
      && AccountFor(pool, st.leases, name).Some?
      && (e.acquire.giveBack.read.Some? ==> e.acquire.giveBack.read.value.name == name)
      && ProvisionEnd(pool, st.(leases := TakenLeases(st, k, e)), k, c, name,
          AccountFor(pool, st.leases, name).value, e.clock, e.acquire, st')
  }

  /** The found lease is one of the pool's, and the registry and the provider know its resource. */
  lemma FoundLease(pool: Pool, leases: Leases, now: int, view: Option<seq<Seen>>, typ: string,
                   required: map<string, string>)
    requires LeasesSound(pool, leases, now)
    requires view.Some? ==> forall s | s in view.value :: PossibleRead(leases, s.lease)
    ensures var found := FindFree(view, typ, required);
            found.Some? ==>
              && found.value.name in leases && found.value.name != ""
              && LabelledResource(found.value) == LabelledResource(leases[found.value.name])
              && AccountFor(pool, leases, found.value.name).Some?
              && Find(ResourcesOf(pool.accounts), LabelledResource(found.value))
                  == AccountIndex(pool, leases[found.value.name])
  {
    var found := FindFree(view, typ, required);
    if found.Some? {
      FindFreeIsExact(view.value, typ, required);
      var i :| 0 <= i < |view.value| && view.value[i].lease == found.value;
      assert view.value[i] in view.value;
      assert LeaseSound(pool, leases[found.value.name], now);
      LookupsAgree(pool.accounts, LabelledResource(found.value));
    }
  }

  lemma AcquireEnds(pool: Pool, st: Store, now: int, k: ClaimKey, e: Env)
    requires LeasesSound(pool, st.leases, now) && Possible(pool, st, now, k, e)
    requires e.get.Got?
    requires var c := e.get.claim; c.spec.typ == PROVIDER && !c.deleting && c.finalizer && c.status.phase != Bound
    ensures AcquireEnd(pool, st, k, e, AcquireClaim(pool, st, k, e.get.claim, e.clock, e.acquire).0)
  {
    hide ProvisionEnd, ProvisionClaim, LeaseLabels;
    var c := e.get.claim;
    FoundLease(pool, st.leases, now, e.acquire.view, c.spec.typ, c.spec.requiredLabels);
    var found := FindFree(e.acquire.view, c.spec.typ, c.spec.requiredLabels);
    if found.Some? {
      TakeEffect(st.leases, e.acquire.read, HolderIdentity(k), DurationOf(c), e.clock.check, e.clock.stamp,
          e.acquire.takeOk);
      var name := found.value.name;
      var r := ResourceOf(AccountFor(pool, st.leases, name).value);
      ProvisionEnds(pool, st.(leases := TakenLeases(st, k, e)), k, c, name, r, e.clock, e.acquire);
    }
  }

  /** The claims after the claim is marked Releasing, and the claim as the reconciler then holds it. */
  function MarkClaims(claims: Claims, k: ClaimKey, c: Claim, accepted: bool): (Claims, Claim) {
    if c.status.phase == Releasing then (claims, c)
    else
      var (claims', ok) := UpdateStatus(claims, k, WithPhase(c, Releasing), accepted);
      (claims', if ok && k in claims' then claims'[k] else WithPhase(c, Releasing))
  }

  /** A deletion marks the claim, cleans up and frees what it records, and then drops the finalizer. */
  ghost predicate DeletionEnd(pool: Pool, st: Store, k: ClaimKey, c: Claim, e: DeletionEnv, st': Store) {
    if !c.finalizer then st' == st
    else
      var (claims, held) := MarkClaims(st.claims, k, c, e.statusOk);
      var recorded := held.status.leaseName != "";
      var (leases, ok) := if recorded then Release(st.leases, e.release.read, e.release.accepted)
          else (st.leases, true);
      var cleaned := if recorded then ReleaseRecorded(pool, st, k, held, e.provider) else st;
      && st'.leases == leases
      && st'.claims == (if ok then UpdateFinalizer(claims, k, held.(finalizer := false), e.finalizerOk).0 else claims)
      && st'.users == cleaned.users && st'.secrets == cleaned.secrets
  }

  lemma MarkingParts(st: Store, k: ClaimKey, c: Claim, accepted: bool)
    ensures MarkReleasing(st, k, c, accepted)
         == (st.(claims := MarkClaims(st.claims, k, c, accepted).0), MarkClaims(st.claims, k, c, accepted).1)
  {
  }

  /** The provider's cleanup neither reads nor writes claims. */
  lemma CleaningParts(pool: Pool, st: Store, claims: Claims, k: ClaimKey, c: Claim, calls: ReleaseCalls)
    ensures var cleaned := ReleaseRecorded(pool, st, k, c, calls);
            && ReleaseRecorded(pool, st.(claims := claims), k, c, calls) == cleaned.(claims := claims)
            && cleaned.leases == st.leases
  {
    hide Find, FindAccount, ResourceNameOf, AppSecret, HolderIdentity, AdminReady;
  }

  lemma FreeingParts(pool: Pool, st: Store, claims: Claims, k: ClaimKey, c: Claim, e: DeletionEnv)
    ensures var (leases, ok) := Release(st.leases, e.release.read, e.release.accepted);
            var cleaned := ReleaseRecorded(pool, st, k, c, e.provider);
            var claims' := if ok then UpdateFinalizer(claims, k, c.(finalizer := false), e.finalizerOk).0 else claims;
            FreeAndRemove(pool, st.(claims := claims), k, c, e).0
                == Store(leases, claims', cleaned.secrets, cleaned.users)
  {
    hide ReleaseRecorded, UpdateFinalizer, Release;
    CleaningParts(pool, st, claims, k, c, e.provider);
  }

  lemma DeletionEnds(pool: Pool, st: Store, k: ClaimKey, c: Claim, e: DeletionEnv)
    ensures DeletionEnd(pool, st, k, c, e, HandleDeletion(pool, st, k, c, e).0)
  {
    hide MarkReleasing, MarkClaims, ReleaseRecorded, UpdateFinalizer, Release, FreeAndRemove;
    MarkingParts(st, k, c, e.statusOk);
    var (claims, held) := MarkClaims(st.claims, k, c, e.statusOk);
    FreeingParts(pool, st, claims, k, held, e);
  }

  ghost predicate ReconcileEnd(pool: Pool, st: Store, k: ClaimKey, e: Env, st': Store) {
    if !e.get.Got? then st' == st
    else
      var c := e.get.claim;
      if c.spec.typ != PROVIDER then st' == WritePhase(st, k, c, Failed, e.statusOk).0
      else if c.deleting then DeletionEnd(pool, st, k, c, e.deletion, st')
      else if !c.finalizer then
        st' == st.(claims := UpdateFinalizer(st.claims, k, c.(finalizer := true), e.finalizerOk).0)
      else if c.status.phase == Bound then st' == KeepBound(st, k, c, e.clock, e.deleteOk).0
      else AcquireEnd(pool, st, k, e, st')
  }

  /** Every reconciliation of a pool with sound leases ends in one of these ways. */
  lemma ReconcileEnds(pool: Pool, st: Store, now: int, k: ClaimKey, e: Env)
    requires LeasesSound(pool, st.leases, now) && Possible(pool, st, now, k, e)
    ensures ReconcileEnd(pool, st, k, e, Reconcile(pool, st, k, e).0)
  {
    if e.get.Got? {
      var c := e.get.claim;
      if c.spec.typ == PROVIDER && c.deleting {
        DeletionEnds(pool, st, k, c, e.deletion);
      } else if c.spec.typ == PROVIDER && c.finalizer && c.status.phase != Bound {
        AcquireEnds(pool, st, now, k, e);
      }
    }
  }
}
