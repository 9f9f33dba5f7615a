/**
 * The operator never touches a Secret that is not one of its per-claim Secrets. In particular
 * the admin Secrets, which hold the long-lived credentials of the pool, survive every
 * acquisition, release, crash and startup cleanup unchanged.
 */
module UserSecrets {
  import opened Objects
  import opened Names
  import opened Stores
  import opened Registry
  import opened Accounts
  import opened Snowflake
  import opened Reconciling
  import opened Steps
  import opened Runs
  import opened Lifecycle

  ghost predicate SameAt(secrets: Secrets, secrets': Secrets, key: SecretKey) {
    (key in secrets <==> key in secrets') && (key in secrets ==> secrets'[key] == secrets[key])
  }

  lemma AppSecretIsPrefixed(claimName: string)
    ensures HasAppSecretPrefix(AppSecret(claimName).name)
  {
  }

  lemma ProvisionKeeps(pool: Pool, st: Store, k: ClaimKey, c: Claim, name: string, a: Account, clock: Clock,
                       e: AcquireEnv, st': Store, key: SecretKey)
    requires !HasAppSecretPrefix(key.name) && a in pool.accounts && ProvisionEnd(pool, st, k, c, name, a, clock, e, st')
    ensures SameAt(st.secrets, st'.secrets, key)
  {
    hide AcquireResource, AppSecret, HolderIdentity, AccountFromUrl, AccountIdentifier;
    AppSecretIsPrefixed(HolderIdentity(k));
    LookupsAgree(pool.accounts, a.name);
    AcquireFrame(pool.accounts, st, ResourceOf(a), HolderIdentity(k), e.provider);
  }

  lemma ReleaseKeeps(pool: Pool, st: Store, k: ClaimKey, c: Claim, calls: ReleaseCalls, key: SecretKey)
    requires !HasAppSecretPrefix(key.name)
    ensures SameAt(st.secrets, ReleaseRecorded(pool, st, k, c, calls).secrets, key)
  {
    hide ReleaseResource, AppSecret, HolderIdentity, ResourceNameOf;
    AppSecretIsPrefixed(HolderIdentity(k));
    var name := ResourceNameOf(c.spec.typ, c.status.leaseName);
    var i := Find(ResourcesOf(pool.accounts), name);
    if name != "" && i.Some? {
      LookupsAgree(pool.accounts, name);
      Snowflake.ReleaseEffect(pool.accounts, st, pool.namespace, ResourcesOf(pool.accounts)[i.value],
          HolderIdentity(k), calls);
    }
  }

  lemma AcquireKeeps(pool: Pool, st: Store, k: ClaimKey, e: Env, st': Store, key: SecretKey)
    requires !HasAppSecretPrefix(key.name) && e.get.Got? && AcquireEnd(pool, st, k, e, st')
    ensures SameAt(st.secrets, st'.secrets, key)
  {
    hide ProvisionEnd, Taken, TakenLeases, HasAppSecretPrefix;
    match Taken(pool, st, k, e)
    case None =>
    case Some(name) =>
      var a := AccountFor(pool, st.leases, name).value;
      ProvisionKeeps(pool, st.(leases := TakenLeases(st, k, e)), k, e.get.claim, name, a, e.clock, e.acquire, st', key);
  }

  lemma ReconcileKeeps(pool: Pool, st: Store, k: ClaimKey, e: Env, st': Store, key: SecretKey)
    requires !HasAppSecretPrefix(key.name) && ReconcileEnd(pool, st, k, e, st')
    ensures SameAt(st.secrets, st'.secrets, key)
  {
    hide AcquireEnd, ReleaseRecorded, HasAppSecretPrefix;
    if e.get.Got? {
      var c := e.get.claim;
      if c.spec.typ != PROVIDER {
      } else if c.deleting {
        ReleaseKeeps(pool, st, k, MarkClaims(st.claims, k, c, e.deletion.statusOk).1, e.deletion.provider, key);
      } else if c.finalizer && c.status.phase != Bound {
        AcquireKeeps(pool, st, k, e, st', key);
      }
    }
  }

  lemma StepKeeps(pool: Pool, s: State, e: Event, key: SecretKey)
    requires Sound(pool, s) && Allowed(pool, s, e) && !HasAppSecretPrefix(key.name)
    requires e.UserSecret? ==> e.key != key
    ensures SameAt(s.store.secrets, Next(pool, s, e).store.secrets, key)
  {
    hide LeasesSound, ClaimsSound, ReconcileEnd;
    match e
    case Reconciled(k, env) =>
      ReconcileEnds(pool, s.store, s.now, k, env);
      ReconcileKeeps(pool, s.store, k, env, Reconcile(pool, s.store, k, env).0, key);
    case Crashed(k, env) =>
      ReconcileEnds(pool, s.store, s.now, k, env);
      ReconcileKeeps(pool, s.store, k, env, Reconcile(pool, s.store, k, env).0, key);
    case _ =>
  }

  lemma RunStepKeeps(pool: Pool, ss: seq<State>, es: seq<Event>, m: nat, key: SecretKey)
    requires ValidConfig(pool.accounts) && IsRun(pool, ss, es) && m < |es|
    requires !HasAppSecretPrefix(key.name) && (es[m].UserSecret? ==> es[m].key != key)
    ensures SameAt(ss[m].store.secrets, ss[m + 1].store.secrets, key)
  {
    hide ValidConfig, Sound, Next, Allowed, Initial, HasAppSecretPrefix, SameAt;
    RunSound(pool, ss, es, m);
    StepKeeps(pool, ss[m], es[m], key);
  }

  /** Whatever fails: between two states a user's Secret changes only if a user changes it. */
  lemma {:induction false} RunKeepsUserSecrets(pool: Pool, ss: seq<State>, es: seq<Event>, i: nat, j: nat,
                                               key: SecretKey)
    requires ValidConfig(pool.accounts) && IsRun(pool, ss, es) && i <= j < |ss|
    requires !HasAppSecretPrefix(key.name)
    requires forall m | i <= m < j :: es[m].UserSecret? ==> es[m].key != key
    ensures SameAt(ss[i].store.secrets, ss[j].store.secrets, key)
    decreases j
  {
    assert |ss| == |es| + 1;
    hide ValidConfig, IsRun, HasAppSecretPrefix;
    if i < j {
      RunKeepsUserSecrets(pool, ss, es, i, j - 1, key);
      RunStepKeeps(pool, ss, es, j - 1, key);
    }
  }
}
