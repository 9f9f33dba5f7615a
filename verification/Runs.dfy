/**
 * Runs of the pool: reconciliations with arbitrary outcomes, crashes, starts, and what users do.
 * A crash between two calls of a reconciliation is a reconciliation all of whose later calls
 * are refused, after which the operator is down.
 */
module Runs {
  import opened Wrappers
  import opened Objects
  import opened Names
  import opened Stores
  import opened Accounts
  import opened Reconciling
  import opened Starting

  datatype State = State(store: Store, now: int, nextUid: nat, up: bool)

  /** `survives` is false if the operator goes down before or while it finishes starting. */
  datatype Event =
    | Tick(t: int)
    | UserCreate(k: ClaimKey, spec: ClaimSpec)
    | UserDelete(k: ClaimKey)
    | UserSecret(key: SecretKey, value: Option<Secret>)
    | Reconciled(k: ClaimKey, env: Env)
    | Crashed(k: ClaimKey, env: Env)
    | Started(start: StartEnv, survives: bool)

  function Later(t: int, u: int): int {
    if t <= u then u else t
  }

  function Next(pool: Pool, s: State, e: Event): State {
    var st := s.store;
    match e
    case Tick(t) => s.(now := t)
    case UserCreate(k, spec) =>
      s.(store := st.(claims := st.claims[k := Claim(s.nextUid, 0, spec, false, false, BLANK)]),
          nextUid := s.nextUid + 1)
    case UserDelete(k) => s.(store := st.(claims := DeleteClaim(st.claims, k)))
    case UserSecret(key, value) =>
      s.(store := st.(secrets := if value.None? then st.secrets - {key} else st.secrets[key := value.value]))
    case Reconciled(k, env) =>
      s.(store := Reconcile(pool, st, k, env).0, now := Later(env.clock.until, env.clock.bind))
    case Crashed(k, env) =>
      s.(store := Reconcile(pool, st, k, env).0, now := Later(env.clock.until, env.clock.bind), up := false)
    case Started(start, survives) =>
      var (st', ok) := Start(pool, st, start);
      s.(store := st', up := ok && survives)
  }

  /** Names come from Kubernetes; per-claim Secrets are left to the operator; only a running operator reconciles. */
  ghost predicate Allowed(pool: Pool, s: State, e: Event) {
    match e
    case Tick(t) => s.now <= t
    case UserCreate(k, spec) => k !in s.store.claims && ValidKey(k)
    case UserDelete(k) => true
    case UserSecret(key, value) => !HasAppSecretPrefix(key.name)
    case Reconciled(k, env) => s.up && ValidKey(k) && Possible(pool, s.store, s.now, k, env)
    case Crashed(k, env) => s.up && ValidKey(k) && Possible(pool, s.store, s.now, k, env)
    case Started(start, survives) => !s.up
  }

  /** Before the operator first starts. */
  ghost predicate Initial(s: State) {
    && s.store.leases == map[] && s.store.claims == map[] && !s.up
    && forall key | key in s.store.secrets :: !HasAppSecretPrefix(key.name)
  }

  ghost predicate IsRun(pool: Pool, ss: seq<State>, es: seq<Event>) {
    && |ss| == |es| + 1
    && Initial(ss[0])
    && forall i | 0 <= i < |es| :: Allowed(pool, ss[i], es[i]) && ss[i + 1] == Next(pool, ss[i], es[i])
  }
}
