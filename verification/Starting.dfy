/** Operator start: create missing leases, then clean up whatever the previous run left behind. */
module Starting {
  import opened Wrappers
  import opened Objects
  import opened Stores
  import opened Registry
  import opened Accounts
  import opened Leasing
  import opened Snowflake
  import opened Provider
  import opened Reconciling

  /** The refused sets are the objects whose write fails. */
  datatype StartEnv = StartEnv(
    creates: seq<bool>, cleanup: bool, provider: CleanupCalls,
    leasesListed: bool, leasesRefused: set<string>, claimsListed: bool, claimsRefused: set<ClaimKey>)

  const RESET := ClaimStatus(Pending, "", None, None, None, None)

  predicate NeedsReset(c: Claim) {
    c.status.phase == Bound || c.status.phase == Releasing
  }

  function Reset(c: Claim): Claim {
    c.(status := RESET, gen := c.gen + 1)
  }

  function ResetClaims(claims: Claims, listed: bool, refused: set<ClaimKey>): Claims {
    if !listed then claims
    else map k | k in claims :: if NeedsReset(claims[k]) && k !in refused then Reset(claims[k]) else claims[k]
  }

  function Cleanup(pool: Pool, st: Store, e: StartEnv): Store {
    var st1 := CleanupAllClaims(pool.accounts, st, pool.namespace, e.provider);
    st1.(leases := ReleaseAll(st1.leases, e.leasesListed, e.leasesRefused),
         claims := ResetClaims(st1.claims, e.claimsListed, e.claimsRefused))
  }

  /** The flag says whether the operator comes up. */
  function Start(pool: Pool, st: Store, e: StartEnv): (Store, bool) {
    var (leases, ok) := Initialize(st.leases, PROVIDER, ResourcesOf(pool.accounts), 0, e.creates);
    var st1 := st.(leases := leases);
    if !ok then (st1, false) else (if e.cleanup then Cleanup(pool, st1, e) else st1, true)
  }

  method ResetClaimStatuses(cluster: Cluster, listed: bool, refused: set<ClaimKey>)
    modifies cluster`claims
    ensures cluster.claims == ResetClaims(old(cluster.claims), listed, refused)
  {
    if !listed {
      return;
    }
    var items := cluster.claims;
    var rest := items.Keys;
    ghost var goal := ResetClaims(items, true, refused);
    while rest != {}
      invariant rest <= items.Keys
      invariant cluster.claims.Keys == items.Keys
      invariant forall k | k in items :: cluster.claims[k] == if k in rest then items[k] else goal[k]
      decreases |rest|
    {
      var k :| k in rest;
      rest := rest - {k};
      var claim := items[k];
      if claim.status.phase != Bound && claim.status.phase != Releasing {
        continue;
      }
      claim := claim.(status := ClaimStatus(Pending, "", None, None, None, None));
      var ok, held := cluster.WriteStatus(k, claim, k !in refused);
    }
  }

  lemma OnlyName(names: seq<string>, name: string)
    requires Enumerates(names, {name})
    ensures names == [name]
  {
    assert |names| == |multiset(names)| == |multiset({name})| == 1;
    assert names[0] in multiset(names);
  }

  method RunStartupCleanup(cluster: Cluster, registry: Registry<SnowflakeProvider>, leases: Manager, ns: string,
                           e: StartEnv,
                           ghost prov: SnowflakeProvider)
    requires leases.client == cluster && prov.cluster == cluster && registry.providers == map[PROVIDER := prov]
    requires forall n | n in cluster.leases :: cluster.leases[n].name == n
    modifies cluster
    ensures cluster.State() == Cleanup(Pool(prov.accounts, ns), old(cluster.State()), e)
  {
    ghost var before := cluster.State();
    var names := registry.List();
    OnlyName(names, PROVIDER);
    for i := 0 to |names|
      invariant cluster.State() == if i == 0 then before else CleanupAllClaims(prov.accounts, before, ns, e.provider)
    {
      var p := registry.Get(names[i]);
      if p.Some? {
        p.value.CleanupAllClaims(ns, e.provider);
      }
    }
    leases.ReleaseAllLeases(e.leasesListed, e.leasesRefused);
    ResetClaimStatuses(cluster, e.claimsListed, e.claimsRefused);
  }

  /** The start of the program: register, initialise, create leases, clean up. */
  method StartOperator(cluster: Cluster, ns: string, parsed: Option<seq<Account>>, e: StartEnv)
    returns (up: bool, registry: Registry<SnowflakeProvider>, leases: Manager, prov: SnowflakeProvider)
    requires forall n | n in cluster.leases :: cluster.leases[n].name == n
    modifies cluster
    ensures up ==> prov.accounts == (if parsed.Some? then parsed.value else []) && prov.accounts != []
                   && forall a | a in prov.accounts :: Complete(a)
    ensures up ==> leases.client == cluster && prov.cluster == cluster
    ensures up ==> registry.providers == map[PROVIDER := prov]
                   && registry.resourcesByProvider == map[PROVIDER := ResourcesOf(prov.accounts)]
    ensures if parsed.Some? && parsed.value != [] && forall a | a in parsed.value :: Complete(a)
            then (cluster.State(), up) == Start(Pool(parsed.value, ns), old(cluster.State()), e)
            else !up && cluster.State() == old(cluster.State())
  {
    registry := new Registry();
    prov := new SnowflakeProvider(cluster);
    leases := new Manager(cluster);
    var registered := registry.Register(prov.Name(), prov);
    if !registered {
      return false, registry, leases, prov;
    }
    var resources := prov.Initialize(ns, parsed);
    if resources.Failure? {
      return false, registry, leases, prov;
    }
    registry.SetResources(PROVIDER, resources.value);
    var created := leases.InitializeLeasesForProvider(PROVIDER, resources.value, e.creates);
    if !created {
      return false, registry, leases, prov;
    }
    InitializeKeepsNames(old(cluster.leases), PROVIDER, resources.value, 0, e.creates);
    if e.cleanup {
      RunStartupCleanup(cluster, registry, leases, ns, e, prov);
    }
    return true, registry, leases, prov;
  }

  ghost predicate NamesMatch(leases: Leases) {
    forall n | n in leases :: leases[n].name == n
  }

  lemma {:induction false} InitializeKeepsNames(leases: Leases, providerType: string, resources: seq<Resource>,
                                                i: nat, creates: seq<bool>)
    requires i <= |resources| && NamesMatch(leases)
    ensures NamesMatch(Initialize(leases, providerType, resources, i, creates).0)
    decreases |resources| - i
  {
    if i < |resources| {
      var (leases', ok) := CreateLease(leases, NewLease(providerType, resources[i]), Accepts(creates, i));
      if ok {
        InitializeKeepsNames(leases', providerType, resources, i + 1, creates);
      }
    }
  }
}
