/**
 * Everything outside the operator process: the API server's objects and the Snowflake
 * accounts. A write that is not accepted leaves the store unchanged, an update succeeds
 * only against the version it was read from, and writing back identical content is not a
 * new version.
 */
module Stores {
  import opened Objects

  type Leases = map<string, Lease>
  type Claims = map<ClaimKey, Claim>
  type Secrets = map<SecretKey, Secret>
  type Users = map<string, AppUser>

  /** `users` is keyed by Snowflake account; an account without an entry has no app user. */
  datatype Store = Store(leases: Leases, claims: Claims, secrets: Secrets, users: Users)

  /** What a cached read may return: the current lease, or an earlier version of it. */
  predicate PossibleRead(leases: Leases, l: Lease) {
    && l.name in leases
    && l.labels == leases[l.name].labels
    && l.version <= leases[l.name].version
    && (l.version == leases[l.name].version ==> l == leases[l.name])
  }

  predicate IsCurrent(claims: Claims, k: ClaimKey, c: Claim) {
    k in claims && claims[k].uid == c.uid && claims[k].gen == c.gen
  }

  /** A cached claim read may be old, but one of the current version is the current claim. */
  predicate PossibleClaimRead(claims: Claims, k: ClaimKey, c: Claim) {
    IsCurrent(claims, k, c) ==> c == claims[k]
  }

  /** Updates a lease read earlier. The operator only ever changes the spec. */
  function UpdateLease(leases: Leases, l: Lease, accepted: bool): (Leases, bool) {
    if !accepted || l.name !in leases || leases[l.name].version != l.version then (leases, false)
    else if leases[l.name].spec == l.spec then (leases, true)
    else (leases[l.name := leases[l.name].(spec := l.spec, version := l.version + 1)], true)
  }

  /** Creates a lease. That the name is taken already is no error to the caller; any other refusal is. */
  function CreateLease(leases: Leases, l: Lease, accepted: bool): (Leases, bool) {
    if !accepted then (leases, false)
    else if l.name in leases then (leases, true)
    else (leases[l.name := l.(version := 0)], true)
  }

  /** The status subresource: only the status of `c` is written. */
  function UpdateStatus(claims: Claims, k: ClaimKey, c: Claim, accepted: bool): (Claims, bool) {
    if !accepted || !IsCurrent(claims, k, c) then (claims, false)
    else if claims[k].status == c.status then (claims, true)
    else (claims[k := claims[k].(status := c.status, gen := c.gen + 1)], true)
  }

  /** The main resource: only the finalizer of `c` is written. A deleting claim without finalizer is gone. */
  function UpdateFinalizer(claims: Claims, k: ClaimKey, c: Claim, accepted: bool): (Claims, bool) {
    if !accepted || !IsCurrent(claims, k, c) then (claims, false)
    else if claims[k].deleting && !c.finalizer then (claims - {k}, true)
    else if claims[k].finalizer == c.finalizer then (claims, true)
    else (claims[k := claims[k].(finalizer := c.finalizer, gen := c.gen + 1)], true)
  }

  /** Deletion by name: immediate without finalizer, otherwise marked. */
  function DeleteClaim(claims: Claims, k: ClaimKey): Claims {
    if k !in claims || claims[k].deleting then claims
    else if claims[k].finalizer then claims[k := claims[k].(deleting := true, gen := claims[k].gen + 1)]
    else claims - {k}
  }

  /** A script of outcomes: a call beyond its end succeeds. */
  predicate Accepts(script: seq<bool>, i: nat) {
    i < |script| ==> script[i]
  }

  /**
   * The same store as the operator sees it: each method is one call of the API server's or
   * Snowflake's client. `accepted` is the outcome of the call, chosen by the environment.
   */
  class Cluster {
    var leases: Leases
    var claims: Claims
    var secrets: Secrets
    var users: Users

    ghost function State(): Store
      reads this
    {
      Store(leases, claims, secrets, users)
    }

    constructor (st: Store)
      ensures State() == st
    {
      leases, claims, secrets, users := st.leases, st.claims, st.secrets, st.users;
    }

    method WriteLease(l: Lease, accepted: bool) returns (ok: bool)
      modifies this`leases
      ensures (leases, ok) == UpdateLease(old(leases), l, accepted)
    {
      if accepted && l.name in leases && leases[l.name].version == l.version {
        if leases[l.name].spec != l.spec {
          leases := leases[l.name := leases[l.name].(spec := l.spec, version := l.version + 1)];
        }
        return true;
      }
      return false;
    }

    method AddLease(l: Lease, accepted: bool) returns (ok: bool)
      modifies this`leases
      ensures (leases, ok) == CreateLease(old(leases), l, accepted)
    {
      if accepted && l.name !in leases {
        leases := leases[l.name := l.(version := 0)];
      }
      return accepted;
    }

    /** Returns the claim as the caller holds it afterwards: the stored one when the write succeeds. */
    method WriteStatus(k: ClaimKey, c: Claim, accepted: bool) returns (ok: bool, held: Claim)
      modifies this`claims
      ensures (claims, ok) == UpdateStatus(old(claims), k, c, accepted)
      ensures held == if ok then claims[k] else c
    {
      if accepted && k in claims && claims[k].uid == c.uid && claims[k].gen == c.gen {
        if claims[k].status != c.status {
          claims := claims[k := claims[k].(status := c.status, gen := c.gen + 1)];
        }
        return true, claims[k];
      }
      return false, c;
    }

    method WriteFinalizer(k: ClaimKey, c: Claim, accepted: bool) returns (ok: bool)
      modifies this`claims
      ensures (claims, ok) == UpdateFinalizer(old(claims), k, c, accepted)
    {
      if accepted && k in claims && claims[k].uid == c.uid && claims[k].gen == c.gen {
        if claims[k].deleting && !c.finalizer {
          claims := claims - {k};
        } else if claims[k].finalizer != c.finalizer {
          claims := claims[k := claims[k].(finalizer := c.finalizer, gen := c.gen + 1)];
        }
        return true;
      }
      return false;
    }

    method MarkDeleted(k: ClaimKey)
      modifies this`claims
      ensures claims == DeleteClaim(old(claims), k)
    {
      if k in claims && !claims[k].deleting {
        if claims[k].finalizer {
          claims := claims[k := claims[k].(deleting := true, gen := claims[k].gen + 1)];
        } else {
          claims := claims - {k};
        }
      }
    }
  }
}
