/** One reconciliation of a claim, as a function of the store and of the outcome of every call it makes. */
module Reconciling {
  import opened Wrappers
  import opened Objects
  import opened Names
  import opened LeaseRules
  import opened Stores
  import opened Registry
  import opened Accounts
  import opened Leasing
  import opened Snowflake

  const REQUEUE_PENDING: int := 30 * SECOND
  const REQUEUE_ERROR: int := 60 * SECOND

  /** The configured accounts and the operator's namespace. */
  datatype Pool = Pool(accounts: seq<Account>, namespace: string)

  /** What the reconciler hands back to its work queue. */
  datatype Outcome = Done | Again | After(delay: int) | Error

  /** The clock readings of one reconciliation, in program order. */
  datatype Clock = Clock(expiry: int, until: int, check: int, stamp: int, bind: int)

  datatype ReleaseCall = ReleaseCall(read: Option<Lease>, accepted: bool)

  /** `view` and `read` are the cached listing and the cached lease. */
  datatype AcquireEnv = AcquireEnv(
    view: Option<seq<Seen>>, read: Option<Lease>, takeOk: bool, provider: AcquireCalls, statusOk: bool,
        giveBack: ReleaseCall)

  datatype DeletionEnv = DeletionEnv(statusOk: bool, provider: ReleaseCalls, release: ReleaseCall, finalizerOk: bool)

  datatype ClaimGet = Gone | Unreachable | Got(claim: Claim)

  datatype Env = Env(
    get: ClaimGet, clock: Clock, statusOk: bool, finalizerOk: bool, deleteOk: bool, acquire: AcquireEnv,
        deletion: DeletionEnv)

  function WithPhase(c: Claim, phase: Phase): Claim {
    c.(status := c.status.(phase := phase))
  }

  function WritePhase(st: Store, k: ClaimKey, c: Claim, phase: Phase, accepted: bool): (Store, bool) {
    var (claims, ok) := UpdateStatus(st.claims, k, WithPhase(c, phase), accepted);
    (st.(claims := claims), ok)
  }

  function GiveBack(st: Store, call: ReleaseCall): (Store, bool) {
    var (leases, ok) := Release(st.leases, call.read, call.accepted);
    (st.(leases := leases), ok)
  }

  /** The release of a lease succeeds: it is read, and still current when the accepted write arrives. */
  predicate Lands(leases: Leases, call: ReleaseCall) {
    && call.read.Some? && call.accepted
    && call.read.value.name in leases && leases[call.read.value.name].version == call.read.value.version
  }

  function DurationOf(c: Claim): int {
    if c.spec.duration.Some? then c.spec.duration.value else HOUR
  }

  function LabelledResource(l: Lease): string {
    if RESOURCE_NAME in l.labels then l.labels[RESOURCE_NAME] else ""
  }

  function BoundStatus(c: Claim, leaseName: string, bind: int, connection: Connection, secret: string): ClaimStatus {
    ClaimStatus(Bound, leaseName, Some(StoredSecond(bind)), Some(StoredSecond(Deadline(bind, DurationOf(c)))),
        Some(connection), Some(secret))
  }

  /** After the lease is taken: provision, then bind, giving the lease back on every failure. */
  function ProvisionClaim(pool: Pool, st: Store, k: ClaimKey, c: Claim, leaseName: string, r: Resource, clock: Clock,
                          e: AcquireEnv)
    : (Store, Outcome)
  {
    var (st1, secret) := AcquireResource(pool.accounts, st, r, HolderIdentity(k), e.provider);
    if secret.None? then
      (GiveBack(WritePhase(st1, k, c, Failed, e.statusOk).0, e.giveBack).0, After(REQUEUE_ERROR))
    else
      var bound := if secret.value != "" then r.(credentialSecretName := secret.value) else r;
      var connection := GetConnectionDetails(pool.accounts, bound);
      if connection.None? then
        (GiveBack(WritePhase(st1, k, c, Failed, e.statusOk).0, e.giveBack).0, Done)
      else
        var status := BoundStatus(c, leaseName, clock.bind, connection.value, bound.credentialSecretName);
        var (claims, ok) := UpdateStatus(st1.claims, k, c.(status := status), e.statusOk);
        if ok then (st1.(claims := claims), Done) else (GiveBack(st1, e.giveBack).0, Error)
  }

  function TakeAndProvision(pool: Pool, st: Store, k: ClaimKey, c: Claim, leaseName: string, r: Resource,
                            clock: Clock, e: AcquireEnv)
    : (Store, Outcome)
  {
    var (leases, taken) := Take(st.leases, e.read, HolderIdentity(k), DurationOf(c), clock.check, clock.stamp,
        e.takeOk);
    if !taken then
      var (st1, ok) := WritePhase(st, k, c, Failed, e.statusOk);
      (st1, if ok then After(REQUEUE_ERROR) else Error)
    else ProvisionClaim(pool, st.(leases := leases), k, c, leaseName, r, clock, e)
  }

  function AcquireClaim(pool: Pool, st: Store, k: ClaimKey, c: Claim, clock: Clock, e: AcquireEnv): (Store, Outcome) {
    var found := FindFree(e.view, c.spec.typ, c.spec.requiredLabels);
    if found.None? then
      var (st1, ok) := WritePhase(st, k, c, Pending, e.statusOk);
      (st1, if ok then After(REQUEUE_PENDING) else Error)
    else
      var resources := ResourcesOf(pool.accounts);
      var i := Find(resources, LabelledResource(found.value));
      if i.None? then
        var (st1, ok) := WritePhase(st, k, c, Failed, e.statusOk);
        (st1, if ok then Done else Error)
      else TakeAndProvision(pool, st, k, c, found.value.name, resources[i.value], clock, e)
  }

  /** Marks the claim Releasing unless it is already; also returns the claim as the reconciler then holds it. */
  function MarkReleasing(st: Store, k: ClaimKey, c: Claim, accepted: bool): (Store, Claim) {
    if c.status.phase == Releasing then (st, c)
    else
      var (st1, ok) := WritePhase(st, k, c, Releasing, accepted);
      (st1, if ok && k in st1.claims then st1.claims[k] else WithPhase(c, Releasing))
  }

  function DropFinalizer(st: Store, k: ClaimKey, c: Claim, accepted: bool): (Store, Outcome) {
    var (claims, ok) := UpdateFinalizer(st.claims, k, c.(finalizer := false), accepted);
    (st.(claims := claims), if ok then Done else Error)
  }

  /** The provider's cleanup of the resource named by the slice of the lease name; its failure is passed over. */
  function ReleaseRecorded(pool: Pool, st: Store, k: ClaimKey, c: Claim, calls: ReleaseCalls): Store {
    var resources := ResourcesOf(pool.accounts);
    var name := ResourceNameOf(c.spec.typ, c.status.leaseName);
    var i := Find(resources, name);
    if name == "" || i.None? then st
    else ReleaseResource(pool.accounts, st, pool.namespace, resources[i.value], HolderIdentity(k), calls).0
  }

  function FreeAndRemove(pool: Pool, st: Store, k: ClaimKey, c: Claim, e: DeletionEnv): (Store, Outcome) {
    var st1 := ReleaseRecorded(pool, st, k, c, e.provider);
    var (st2, ok) := GiveBack(st1, e.release);
    if !ok then (st2, Error) else DropFinalizer(st2, k, c, e.finalizerOk)
  }

  function HandleDeletion(pool: Pool, st: Store, k: ClaimKey, c: Claim, e: DeletionEnv): (Store, Outcome) {
    if !c.finalizer then (st, Done)
    else
      var (st1, held) := MarkReleasing(st, k, c, e.statusOk);
      if held.status.leaseName == "" then DropFinalizer(st1, k, held, e.finalizerOk)
      else FreeAndRemove(pool, st1, k, held, e)
  }

  function KeepBound(st: Store, k: ClaimKey, c: Claim, clock: Clock, deleteOk: bool): (Store, Outcome) {
    if c.status.expiresAt.None? then (st, Done)
    else if clock.expiry > c.status.expiresAt.value then
      if deleteOk then (st.(claims := DeleteClaim(st.claims, k)), Done) else (st, After(REQUEUE_ERROR))
    else if c.status.expiresAt.value - clock.until > 0 then (st, After(c.status.expiresAt.value - clock.until))
    else (st, Done)
  }

  function Reconcile(pool: Pool, st: Store, k: ClaimKey, e: Env): (Store, Outcome) {
    match e.get
    case Gone => (st, Done)
    case Unreachable => (st, Error)
    case Got(c) =>
      if c.spec.typ != PROVIDER then
        var (st1, ok) := WritePhase(st, k, c, Failed, e.statusOk);
        (st1, if ok then Done else Error)
      else if c.deleting then HandleDeletion(pool, st, k, c, e.deletion)
      else if !c.finalizer then
        var (claims, ok) := UpdateFinalizer(st.claims, k, c.(finalizer := true), e.finalizerOk);
        (st.(claims := claims), if ok then Again else Error)
      else if c.status.phase == Bound then KeepBound(st, k, c, e.clock, e.deleteOk)
      else AcquireClaim(pool, st, k, c, e.clock, e.acquire)
  }

  /** The lease whose acquisition succeeds in this reconciliation, if any. */
  function Taken(pool: Pool, st: Store, k: ClaimKey, e: Env): Option<string> {
    if !e.get.Got? then None
    else
      var c := e.get.claim;
      if c.spec.typ != PROVIDER || c.deleting || !c.finalizer || c.status.phase == Bound then None
      else
        var found := FindFree(e.acquire.view, c.spec.typ, c.spec.requiredLabels);
        if found.None? || Find(ResourcesOf(pool.accounts), LabelledResource(found.value)).None? then None
        else if Take(st.leases, e.acquire.read, HolderIdentity(k), DurationOf(c), e.clock.check, e.clock.stamp,
            e.acquire.takeOk).1
        then Some(found.value.name)
        else None
  }

  // What the environment may do.

  /** Clock readings never go back. */
  predicate InOrder(now: int, clock: Clock) {
    now <= clock.expiry <= clock.until && now <= clock.check <= clock.stamp <= clock.bind
  }

  /** A cached listing, searched in order between two clock readings. */
  ghost predicate PossibleListing(leases: Leases, now: int, view: seq<Seen>, until: int) {
    && (forall s | s in view :: PossibleRead(leases, s.lease) && now <= s.at <= until)
    && forall i, j | 0 <= i < j < |view| :: view[i].at <= view[j].at
  }

  /** A cached Get by name returns an earlier or the current version of that lease. */
  predicate PossibleGet(leases: Leases, read: Option<Lease>, name: string) {
    read.Some? ==> read.value.name == name && PossibleRead(leases, read.value)
  }

  /**
   * Any outcome of any call, any past version of any lease, any past version of the claim.
   * The lease read for giving a lease back comes after the acquisition, so only its name is fixed.
   */
  ghost predicate Possible(pool: Pool, st: Store, now: int, k: ClaimKey, e: Env) {
    && InOrder(now, e.clock)
    && (e.get.Got? ==>
          var c := e.get.claim;
          && PossibleClaimRead(st.claims, k, c)
          && (e.acquire.view.Some? ==> PossibleListing(st.leases, now, e.acquire.view.value, e.clock.check))
          && (e.deletion.release.read.Some? ==> e.deletion.release.read.value.name == c.status.leaseName)
          && (var found := FindFree(e.acquire.view, c.spec.typ, c.spec.requiredLabels);
              found.Some? ==>
                && PossibleGet(st.leases, e.acquire.read, found.value.name)
                && (e.acquire.giveBack.read.Some? ==> e.acquire.giveBack.read.value.name == found.value.name)))
  }
}
