/** The reconciler, step by step on the cluster. */
module Controller {
  import opened Wrappers
  import opened Objects
  import opened Names
  import opened LeaseRules
  import opened Stores
  import opened Registry
  import opened Accounts
  import opened Leasing
  import opened Snowflake
  import opened Provider
  import opened Reconciling

  class ClaimReconciler {
    const cluster: Cluster
    const leases: Manager
    const registry: Registry<SnowflakeProvider>
    const namespace: string

    constructor (cluster: Cluster, leases: Manager, registry: Registry<SnowflakeProvider>, namespace: string)
      ensures this.cluster == cluster && this.leases == leases && this.registry == registry
          && this.namespace == namespace
    {
      this.cluster, this.leases, this.registry, this.namespace := cluster, leases, registry, namespace;
    }

    /** The registry holds the Snowflake provider and the resources of its configuration. */
    ghost predicate Ready(prov: SnowflakeProvider)
      reads this, registry, prov
    {
      && leases.client == cluster && prov.cluster == cluster
      && registry.providers == map[PROVIDER := prov]
      && registry.resourcesByProvider == map[PROVIDER := ResourcesOf(prov.accounts)]
    }

    method WritePhase(k: ClaimKey, c: Claim, phase: Phase, accepted: bool) returns (ok: bool)
      modifies cluster`claims
      ensures (cluster.State(), ok) == Reconciling.WritePhase(old(cluster.State()), k, c, phase, accepted)
    {
      var claim := c.(status := c.status.(phase := phase));
      var held;
      ok, held := cluster.WriteStatus(k, claim, accepted);
    }

    method Reconcile(k: ClaimKey, e: Env, ghost prov: SnowflakeProvider) returns (outcome: Outcome)
      requires Ready(prov)
      requires e.get.Got? ==> PossibleClaimRead(cluster.claims, k, e.get.claim)
      requires e.get.Got? && e.deletion.release.read.Some?
          ==> e.deletion.release.read.value.name == e.get.claim.status.leaseName
      modifies cluster
      ensures (cluster.State(), outcome)
           == Reconciling.Reconcile(Pool(prov.accounts, namespace), old(cluster.State()), k, e)
      ensures Ready(prov)
    {
      if e.get.Gone? {
        return Done;
      }
      if e.get.Unreachable? {
        return Error;
      }
      var claim := e.get.claim;
      if claim.spec.typ == "" {
        var ok := WritePhase(k, claim, Failed, e.statusOk);
        return if ok then Done else Error;
      }
      var found := registry.Get(claim.spec.typ);
      if found.None? {
        var ok := WritePhase(k, claim, Failed, e.statusOk);
        return if ok then Done else Error;
      }
      if claim.deleting {
        outcome := HandleDeletion(k, claim, found.value, e.deletion);
        return;
      }
      if !claim.finalizer {
        claim := claim.(finalizer := true);
        var ok := cluster.WriteFinalizer(k, claim, e.finalizerOk);
        return if ok then Again else Error;
      }
      if claim.status.phase == Bound {
        if claim.status.expiresAt.Some? && e.clock.expiry > claim.status.expiresAt.value {
          if !e.deleteOk {
            return After(REQUEUE_ERROR);
          }
          cluster.MarkDeleted(k);
          return Done;
        }
        if claim.status.expiresAt.Some? {
          var remaining := claim.status.expiresAt.value - e.clock.until;
          if remaining > 0 {
            return After(remaining);
          }
        }
        return Done;
      }
      outcome := AcquireLease(k, claim, found.value, e.clock, e.acquire);
    }

    method AcquireLease(k: ClaimKey, c: Claim, prov: SnowflakeProvider, clock: Clock, e: AcquireEnv)
      returns (outcome: Outcome)
      requires Ready(prov) && c.spec.typ == PROVIDER
      modifies cluster
      ensures (cluster.State(), outcome)
           == AcquireClaim(Pool(prov.accounts, namespace), old(cluster.State()), k, c, clock, e)
      ensures Ready(prov)
    {
      var claim := c;
      var found, resourceName := leases.FindFreeLease(e.view, claim.spec.typ, claim.spec.requiredLabels);
      if found.None? {
        var ok := WritePhase(k, claim, Pending, e.statusOk);
        return if ok then After(REQUEUE_PENDING) else Error;
      }
      var pointer := registry.GetResource(claim.spec.typ, resourceName);
      if pointer.None? {
        var ok := WritePhase(k, claim, Failed, e.statusOk);
        return if ok then Done else Error;
      }
      // A local copy: changing its Secret name below leaves the registry entry alone.
      var resource := registry.GetResources(claim.spec.typ)[pointer.value];
      outcome := LockAndProvision(k, claim, prov, found.value.name, resource, clock, e);
    }

    method LockAndProvision(k: ClaimKey, c: Claim, prov: SnowflakeProvider, leaseName: string, resource: Resource,
                            clock: Clock, e: AcquireEnv)
      returns (outcome: Outcome)
      requires Ready(prov)
      modifies cluster
      ensures (cluster.State(), outcome)
           == TakeAndProvision(Pool(prov.accounts, namespace), old(cluster.State()), k, c, leaseName, resource,
               clock, e)
      ensures Ready(prov)
    {
      var claim := c;
      var duration := HOUR;
      if claim.spec.duration.Some? {
        duration := claim.spec.duration.value;
      }
      var holder := HolderIdentity(k);
      var taken := leases.AcquireLease(e.read, holder, duration, clock.check, clock.stamp, e.takeOk);
      if !taken {
        var ok := WritePhase(k, claim, Failed, e.statusOk);
        return if ok then After(REQUEUE_ERROR) else Error;
      }
      outcome := ProvisionAndBind(k, claim, prov, leaseName, resource, clock, e);
    }

    /** The rest of the acquisition, once the lease is taken. */
    method ProvisionAndBind(k: ClaimKey, c: Claim, prov: SnowflakeProvider, leaseName: string, r: Resource,
                            clock: Clock, e: AcquireEnv)
      returns (outcome: Outcome)
      requires Ready(prov)
      modifies cluster
      ensures (cluster.State(), outcome)
           == ProvisionClaim(Pool(prov.accounts, namespace), old(cluster.State()), k, c, leaseName, r, clock, e)
      ensures Ready(prov)
    {
      hide Snowflake.AcquireResource, Release, HolderIdentity, StoredSecond, Snowflake.GetConnectionDetails;
      var claim, resource := c, r;
      var secretName := prov.AcquireResource(resource, HolderIdentity(k), e.provider);
      if secretName.None? {
        var written := WritePhase(k, claim, Failed, e.statusOk);
        var released := leases.ReleaseLease(e.giveBack.read, e.giveBack.accepted);
        return After(REQUEUE_ERROR);
      }
      if secretName.value != "" {
        resource := resource.(credentialSecretName := secretName.value);
      }
      var connection := prov.GetConnectionDetails(resource);
      if connection.None? {
        var written := WritePhase(k, claim, Failed, e.statusOk);
        var released := leases.ReleaseLease(e.giveBack.read, e.giveBack.accepted);
        return Done;
      }
      var duration := HOUR;
      if claim.spec.duration.Some? {
        duration := claim.spec.duration.value;
      }
      var expiresAt := clock.bind + duration;
      claim := claim.(status := ClaimStatus(Bound, leaseName, Some(StoredSecond(clock.bind)),
          Some(StoredSecond(expiresAt)),
                                            connection, Some(resource.credentialSecretName)));
      var bound, held := cluster.WriteStatus(k, claim, e.statusOk);
      if !bound {
        var released := leases.ReleaseLease(e.giveBack.read, e.giveBack.accepted);
        return Error;
      }
      return Done;
    }

    method HandleDeletion(k: ClaimKey, c: Claim, prov: SnowflakeProvider, e: DeletionEnv) returns (outcome: Outcome)
      requires Ready(prov) && c.spec.typ == PROVIDER && PossibleClaimRead(cluster.claims, k, c)
      requires e.release.read.Some? ==> e.release.read.value.name == c.status.leaseName
      modifies cluster
      ensures (cluster.State(), outcome)
           == Reconciling.HandleDeletion(Pool(prov.accounts, namespace), old(cluster.State()), k, c, e)
      ensures Ready(prov)
    {
      hide Reconciling.FreeAndRemove;
      var claim := c;
      if !claim.finalizer {
        return Done;
      }
      if claim.status.phase != Releasing {
        claim := claim.(status := claim.status.(phase := Releasing));
        var ok;
        ok, claim := cluster.WriteStatus(k, claim, e.statusOk);
      }
      if claim.status.leaseName == "" {
        claim := claim.(finalizer := false);
        var ok := cluster.WriteFinalizer(k, claim, e.finalizerOk);
        return if ok then Done else Error;
      }
      outcome := FreeAndRemove(k, claim, prov, e);
    }

    method FreeAndRemove(k: ClaimKey, c: Claim, prov: SnowflakeProvider, e: DeletionEnv) returns (outcome: Outcome)
      requires Ready(prov) && c.spec.typ == PROVIDER
      modifies cluster
      ensures (cluster.State(), outcome)
           == Reconciling.FreeAndRemove(Pool(prov.accounts, namespace), old(cluster.State()), k, c, e)
      ensures Ready(prov)
    {
      var claim := c;
      var parts := |LEASE_PREFIX| + |claim.spec.typ| + 1;
      var resourceName := "";
      if |claim.status.leaseName| > parts {
        resourceName := claim.status.leaseName[parts..];
      }
      ReleaseNamedResource(k, claim, prov, resourceName, e.provider);
      var freed := leases.ReleaseLease(e.release.read, e.release.accepted);
      if !freed {
        return Error;
      }
      claim := claim.(finalizer := false);
      var ok := cluster.WriteFinalizer(k, claim, e.finalizerOk);
      return if ok then Done else Error;
    }

    method ReleaseNamedResource(k: ClaimKey, c: Claim, prov: SnowflakeProvider, resourceName: string,
                                calls: ReleaseCalls)
      requires Ready(prov) && c.spec.typ == PROVIDER
      requires resourceName == ResourceNameOf(PROVIDER, c.status.leaseName)
      modifies cluster
      ensures cluster.State() == ReleaseRecorded(Pool(prov.accounts, namespace), old(cluster.State()), k, c, calls)
      ensures Ready(prov)
    {
      if resourceName != "" {
        var pointer := registry.GetResource(c.spec.typ, resourceName);
        if pointer.Some? {
          var resource := registry.GetResources(c.spec.typ)[pointer.value];
          var released := prov.ReleaseResource(namespace, resource, HolderIdentity(k), calls);
        }
      }
    }
  }
}
