/**
 * When a claim is looked at again. A reconciliation that returns an error or a delay is
 * repeated, and a write of the claim triggers the next one; a claim is left alone only when a
 * reconciliation returns neither and writes nothing to it. The periodic resync of the informer
 * cache, which also brings every claim back, is not modelled.
 */
module Waking {
  import opened Wrappers
  import opened Objects
  import opened Names
  import opened Stores
  import opened Accounts
  import opened Leasing
  import opened Snowflake
  import opened Reconciling
  import opened Steps
  import opened Lifecycle
  import opened Exclusivity

  /**
   * Neither the work queue nor a write of the claim brings the operator back; only a user, a resync
   * or a restart does.
   */
  predicate LeftAlone(st: Store, st': Store, outcome: Outcome) {
    outcome == Done && st'.claims == st.claims
  }

  lemma BoundLeftAlone(st: Store, k: ClaimKey, c: Claim, clock: Clock, deleteOk: bool)
    requires k in st.claims && c == st.claims[k] && !c.deleting && c.finalizer && c.status.expiresAt.Some?
    ensures var (st', outcome) := KeepBound(st, k, c, clock, deleteOk);
            && (LeftAlone(st, st', outcome) <==> clock.expiry <= c.status.expiresAt.value <= clock.until)
            && (outcome.After? && clock.expiry <= c.status.expiresAt.value
                ==> clock.until + outcome.delay == c.status.expiresAt.value)
  {
  }

  predicate AboutToGo(claims: Claims, k: ClaimKey, held: Claim) {
    IsCurrent(claims, k, held) && claims[k].deleting
  }

  lemma DropFinishes(st: Store, k: ClaimKey, held: Claim, accepted: bool)
    requires AboutToGo(st.claims, k, held)
    ensures var (st', outcome) := DropFinalizer(st, k, held, accepted);
            (outcome == Done <==> k !in st'.claims) && (outcome == Done || outcome == Error)
  {
  }

  lemma FreeingFinishes(pool: Pool, st: Store, k: ClaimKey, held: Claim, e: DeletionEnv)
    requires AboutToGo(st.claims, k, held)
    ensures var (st', outcome) := FreeAndRemove(pool, st, k, held, e);
            outcome == Done <==> k !in st'.claims
  {
    hide ReleaseRecorded, Release, DropFinalizer;
    CleaningParts(pool, st, st.claims, k, held, e.provider);
    var st2 := GiveBack(ReleaseRecorded(pool, st, k, held, e.provider), e.release).0;
    DropFinishes(st2, k, held, e.finalizerOk);
  }

  lemma DeletionNotLeftAlone(pool: Pool, st: Store, k: ClaimKey, c: Claim, e: DeletionEnv)
    requires k in st.claims && c == st.claims[k] && c.deleting && c.finalizer
    ensures var (st', outcome) := HandleDeletion(pool, st, k, c, e);
            outcome == Done <==> k !in st'.claims
  {
    hide FreeAndRemove, DropFinalizer;
    var (st1, held) := MarkReleasing(st, k, c, e.statusOk);
    DropFinishes(st1, k, held, e.finalizerOk);
    FreeingFinishes(pool, st1, k, held, e);
  }

  lemma ProvisionNotLeftAlone(pool: Pool, st: Store, k: ClaimKey, c: Claim, name: string, a: Account, clock: Clock,
                              e: AcquireEnv)
    requires k in st.claims && c == st.claims[k] && c.status.phase != Bound
    requires FindAccount(pool.accounts, a.name).Some?
    ensures var (st', outcome) := ProvisionClaim(pool, st, k, c, name, ResourceOf(a), clock, e);
            outcome == Done <==> k in st'.claims && st'.claims[k].status.phase == Bound
  {
    hide AcquireResource;
    AcquireFrame(pool.accounts, st, ResourceOf(a), HolderIdentity(k), e.provider);
  }

  lemma AcquireNotLeftAlone(pool: Pool, st: Store, now: int, k: ClaimKey, e: Env)
    requires LeasesSound(pool, st.leases, now) && Possible(pool, st, now, k, e) && e.get.Got? && CurrentRead(st, k, e)
    requires var c := e.get.claim; c.spec.typ == PROVIDER && !c.deleting && c.finalizer && c.status.phase != Bound
    ensures var (st', outcome) := AcquireClaim(pool, st, k, e.get.claim, e.clock, e.acquire);
            outcome == Done <==> k in st'.claims && st'.claims[k].status.phase == Bound
  {
    hide ProvisionClaim, LeasesSound, Take, FindFree;
    var c := e.get.claim;
    FoundLease(pool, st.leases, now, e.acquire.view, c.spec.typ, c.spec.requiredLabels);
    var found := FindFree(e.acquire.view, c.spec.typ, c.spec.requiredLabels);
    if found.Some? {
      var a := AccountFor(pool, st.leases, found.value.name).value;
      var leases := Take(st.leases, e.acquire.read, HolderIdentity(k), DurationOf(c), e.clock.check, e.clock.stamp,
          e.acquire.takeOk).0;
      ProvisionNotLeftAlone(pool, st.(leases := leases), k, c, found.value.name, a, e.clock, e.acquire);
    }
  }

  // What every reconciliation hands back to the work queue.

  /** A version-checked write of the claim, read as `c`, succeeds. */
  predicate WriteLands(st: Store, k: ClaimKey, c: Claim, accepted: bool) {
    accepted && IsCurrent(st.claims, k, c)
  }

  /** Listing failed, or no listed lease is one the claim could have. */
  ghost predicate NothingListed(view: Option<seq<Seen>>, required: map<string, string>) {
    view.None? || forall s | s in view.value :: !Suits(s, "snowflake", required)
  }

  lemma NothingListedIff(view: Option<seq<Seen>>, required: map<string, string>)
    ensures NothingListed(view, required) <==> FindFree(view, PROVIDER, required).None?
  {
    hide Suits;
    if view.Some? {
      FindFreeIsExact(view.value, PROVIDER, required);
      if FindFree(view, PROVIDER, required).Some? {
        var i :| 0 <= i < |view.value| && Suits(view.value[i], PROVIDER, required);
        assert view.value[i] in view.value;
      }
    }
  }

  /** The claim's Secret is stored on the account of the lease it takes. */
  predicate Provisions(pool: Pool, st: Store, k: ClaimKey, e: Env) {
    var taken := Taken(pool, st, k, e);
    && taken.Some? && AccountFor(pool, st.leases, taken.value).Some?
    && var a := AccountFor(pool, st.leases, taken.value).value;
       StoresSecret(st.secrets, HolderIdentity(k), a.credentialSecretName, a, e.acquire.provider)
  }

  predicate EndsDone(pool: Pool, st: Store, k: ClaimKey, e: Env) {
    match e.get
    case Gone => true
    case Unreachable => false
    case Got(c) =>
      if c.spec.typ != "snowflake" then WriteLands(st, k, c, e.statusOk)
      else if c.deleting then
        || !c.finalizer
        || ((c.status.leaseName == "" || Lands(st.leases, e.deletion.release))
            && WriteLands(st, k, c, e.deletion.finalizerOk))
      else if !c.finalizer then false
      else if c.status.phase == Bound then
        || c.status.expiresAt.None?
        || (if e.clock.expiry > c.status.expiresAt.value then e.deleteOk else c.status.expiresAt.value <= e.clock.until)
      else Provisions(pool, st, k, e) && WriteLands(st, k, c, e.acquire.statusOk)
  }

  predicate EndsAgain(st: Store, k: ClaimKey, e: Env) {
    && e.get.Got? && e.get.claim.spec.typ == "snowflake" && !e.get.claim.deleting && !e.get.claim.finalizer
    && WriteLands(st, k, e.get.claim, e.finalizerOk)
  }

  /** The claim is looked at again after `delay` nanoseconds. */
  ghost predicate EndsAfter(pool: Pool, st: Store, k: ClaimKey, e: Env, delay: int) {
    && e.get.Got? && e.get.claim.spec.typ == "snowflake" && !e.get.claim.deleting && e.get.claim.finalizer
    && var c := e.get.claim;
       if c.status.phase == Bound then
         && c.status.expiresAt.Some?
         && if e.clock.expiry > c.status.expiresAt.value then !e.deleteOk && delay == 60 * 1_000_000_000
            else delay == c.status.expiresAt.value - e.clock.until && delay > 0
       else if Taken(pool, st, k, e).None? then
         && WriteLands(st, k, c, e.acquire.statusOk)
         && delay == if NothingListed(e.acquire.view, c.spec.requiredLabels) then 30 * 1_000_000_000
                     else 60 * 1_000_000_000
       else !Provisions(pool, st, k, e) && delay == 60 * 1_000_000_000
  }

  lemma DropOutcome(st: Store, k: ClaimKey, held: Claim, accepted: bool)
    ensures DropFinalizer(st, k, held, accepted).1 == if WriteLands(st, k, held, accepted) then Done else Error
  {
  }

  lemma FreeingOutcome(pool: Pool, st: Store, k: ClaimKey, held: Claim, e: DeletionEnv)
    ensures FreeAndRemove(pool, st, k, held, e).1
         == if Lands(st.leases, e.release) && WriteLands(st, k, held, e.finalizerOk) then Done else Error
  {
    hide ReleaseRecorded, DropFinalizer;
    CleaningParts(pool, st, st.claims, k, held, e.provider);
    DropOutcome(GiveBack(ReleaseRecorded(pool, st, k, held, e.provider), e.release).0, k, held, e.finalizerOk);
  }

  lemma DeletionOutcome(pool: Pool, st: Store, k: ClaimKey, c: Claim, e: DeletionEnv)
    requires PossibleClaimRead(st.claims, k, c) && c.deleting
    ensures var (st', outcome) := HandleDeletion(pool, st, k, c, e);
            outcome == if !c.finalizer || ((c.status.leaseName == "" || Lands(st.leases, e.release))
                                           && WriteLands(st, k, c, e.finalizerOk))
                       then Done else Error
  {
    hide FreeAndRemove, DropFinalizer, Lands;
    var (st1, held) := MarkReleasing(st, k, c, e.statusOk);
    DropOutcome(st1, k, held, e.finalizerOk);
    FreeingOutcome(pool, st1, k, held, e);
  }

  lemma ProvisionOutcome(pool: Pool, st: Store, k: ClaimKey, c: Claim, name: string, a: Account, clock: Clock,
                         e: AcquireEnv)
    requires FindAccount(pool.accounts, a.name).Some? && AccountOf(pool.accounts, ResourceOf(a)) == a
    ensures ProvisionClaim(pool, st, k, c, name, ResourceOf(a), clock, e).1
         == if !StoresSecret(st.secrets, HolderIdentity(k), a.credentialSecretName, a, e.provider)
            then After(60 * 1_000_000_000)
            else if WriteLands(st, k, c, e.statusOk) then Done else Error
  {
    hide AcquireResource, AccountFromUrl, StoresSecret;
    AcquireFrame(pool.accounts, st, ResourceOf(a), HolderIdentity(k), e.provider);
    AcquireExact(pool.accounts, st, ResourceOf(a), HolderIdentity(k), e.provider);
  }

  lemma AcquireOutcome(pool: Pool, st: Store, now: int, k: ClaimKey, e: Env)
    requires LeasesSound(pool, st.leases, now) && Possible(pool, st, now, k, e) && e.get.Got?
    requires var c := e.get.claim; c.spec.typ == PROVIDER && !c.deleting && c.finalizer && c.status.phase != Bound
    ensures var outcome := AcquireClaim(pool, st, k, e.get.claim, e.clock, e.acquire).1;
            && (outcome == Done <==> EndsDone(pool, st, k, e)) && outcome != Again
            && forall delay :: outcome == After(delay) <==> EndsAfter(pool, st, k, e, delay)
  {
    hide ProvisionClaim, LeasesSound, UpdateLease, FindFree, StoresSecret, NothingListed, HolderIdentity;
    var c := e.get.claim;
    NothingListedIff(e.acquire.view, c.spec.requiredLabels);
    FoundLease(pool, st.leases, now, e.acquire.view, c.spec.typ, c.spec.requiredLabels);
    var found := FindFree(e.acquire.view, c.spec.typ, c.spec.requiredLabels);
    if found.Some? {
      var a := AccountFor(pool, st.leases, found.value.name).value;
      var leases := Take(st.leases, e.acquire.read, HolderIdentity(k), DurationOf(c), e.clock.check, e.clock.stamp,
          e.acquire.takeOk).0;
      ProvisionOutcome(pool, st.(leases := leases), k, c, found.value.name, a, e.clock, e.acquire);
    }
  }

  /**
   * What every reconciliation hands back, whichever version of the claim it reads and whatever
   * fails: success, a repetition at once, a repetition after exactly this delay, and in all
   * other cases an error. A failed read of the claim is never a success, and neither is a
   * refused or outdated write on which the reconciliation depends.
   */
  lemma Outcomes(pool: Pool, st: Store, now: int, k: ClaimKey, e: Env)
    requires LeasesSound(pool, st.leases, now) && Possible(pool, st, now, k, e)
    ensures var outcome := Reconcile(pool, st, k, e).1;
            && (outcome == Done <==> EndsDone(pool, st, k, e))
            && (outcome == Again <==> EndsAgain(st, k, e))
            && forall delay :: outcome == After(delay) <==> EndsAfter(pool, st, k, e, delay)
  {
    hide HandleDeletion, AcquireClaim, LeasesSound, Possible, Provisions, NothingListed, Taken, Lands;
    if e.get.Got? {
      var c := e.get.claim;
      if c.spec.typ == PROVIDER && c.deleting {
        assert PossibleClaimRead(st.claims, k, c) by { ReadIsPossible(pool, st, now, k, e); }
        DeletionOutcome(pool, st, k, c, e.deletion);
      } else if c.spec.typ == PROVIDER && c.finalizer && c.status.phase != Bound {
        AcquireOutcome(pool, st, now, k, e);
      }
    }
  }

  lemma ReadIsPossible(pool: Pool, st: Store, now: int, k: ClaimKey, e: Env)
    requires Possible(pool, st, now, k, e) && e.get.Got?
    ensures PossibleClaimRead(st.claims, k, e.get.claim)
  {
  }

  /**
   * Exactly when a reconciliation succeeds without writing any claim. From the stored version
   * of a claim that is when its type is unknown and it already says so, or when it is bound and
   * its deadline lies between the two clock readings; then the deadline passes without a
   * wake-up. From an older version it is also when that version was past its finalizer, or
   * expired and the claim is gone or on its way out by now.
   */
  lemma LeftAloneIff(pool: Pool, st: Store, now: int, k: ClaimKey, e: Env)
    requires LeasesSound(pool, st.leases, now) && ClaimsSound(st.leases.Keys, st.claims)
    requires Possible(pool, st, now, k, e)
    ensures var (st', outcome) := Reconcile(pool, st, k, e);
            LeftAlone(st, st', outcome)
            <==> match e.get
                 case Gone => true
                 case Unreachable => false
                 case Got(c) =>
                   if c.spec.typ != PROVIDER then WriteLands(st, k, c, e.statusOk) && c.status.phase == Failed
                   else if c.deleting then !c.finalizer
                   else && c.finalizer && c.status.phase == Bound
                        && (c.status.expiresAt.None?
                            || if e.clock.expiry > c.status.expiresAt.value
                               then e.deleteOk && (k !in st.claims || st.claims[k].deleting)
                               else c.status.expiresAt.value <= e.clock.until)
  {
    hide HandleDeletion, AcquireClaim, Possible, LeasesSound, ClaimSound;
    Outcomes(pool, st, now, k, e);
    if e.get.Got? {
      var c := e.get.claim;
      ReadIsPossible(pool, st, now, k, e);
      if c.spec.typ == PROVIDER && c.deleting && c.finalizer && IsCurrent(st.claims, k, c) {
        DeletionNotLeftAlone(pool, st, k, c, e.deletion);
      } else if c.spec.typ == PROVIDER && c.deleting && !c.finalizer {
        NothingToDo(pool, st, k, c, e.deletion);
      } else if c.spec.typ == PROVIDER && !c.deleting && c.finalizer && c.status.phase != Bound
          && IsCurrent(st.claims, k, c) {
        AcquireNotLeftAlone(pool, st, now, k, e);
      } else if c.spec.typ == PROVIDER && !c.deleting && c.finalizer && c.status.phase == Bound
          && k in st.claims && !st.claims[k].deleting {
        DeleteChanges(st.claims, k);
      }
    }
  }

  lemma NothingToDo(pool: Pool, st: Store, k: ClaimKey, c: Claim, e: DeletionEnv)
    requires !c.finalizer
    ensures HandleDeletion(pool, st, k, c, e) == (st, Done)
  {
  }

  lemma DeleteChanges(claims: Claims, k: ClaimKey)
    requires k in claims && !claims[k].deleting
    ensures DeleteClaim(claims, k) != claims
  {
  }

  /** For the stored version of a claim. */
  lemma CurrentLeftAloneIff(pool: Pool, st: Store, now: int, k: ClaimKey, e: Env)
    requires LeasesSound(pool, st.leases, now) && ClaimsSound(st.leases.Keys, st.claims)
    requires Possible(pool, st, now, k, e) && e.get.Got? && CurrentRead(st, k, e)
    ensures var (st', outcome) := Reconcile(pool, st, k, e);
            var c := e.get.claim;
            LeftAlone(st, st', outcome)
            <==> if c.spec.typ != PROVIDER then c.status.phase == Failed && e.statusOk
                 else && c.status.phase == Bound && !c.deleting
                      && e.clock.expiry <= c.status.expiresAt.value <= e.clock.until
  {
    hide Reconcile, Possible, LeasesSound;
    assert ClaimSound(st.leases.Keys, e.get.claim);
    LeftAloneIff(pool, st, now, k, e);
  }
}
