/** The objects the operator reads and writes. Times and durations are in nanoseconds. */
module Objects {
  import opened Wrappers
  import opened Text

  /** The namespace and name of a ResourceClaim. */
  datatype ClaimKey = ClaimKey(ns: string, name: string)

  datatype SecretKey = SecretKey(ns: string, name: string)

  datatype LeaseSpec = LeaseSpec(holder: Option<string>, acquireTime: Option<int>, durationSeconds: Option<int>)

  const FREE := LeaseSpec(None, None, None)

  /** `version` grows with every change of the object. */
  datatype Lease = Lease(name: string, labels: map<string, string>, spec: LeaseSpec, version: nat)

  datatype Phase = Unset | Pending | Bound | Failed | Releasing

  datatype ClaimSpec = ClaimSpec(typ: string, duration: Option<int>, requiredLabels: map<string, string>)

  datatype Connection = Connection(accountUrl: string, warehouse: string, database: string, schema: string,
                                   role: string, accountIdentifier: string)

  datatype ClaimStatus = ClaimStatus(
    phase: Phase,
    leaseName: string,
    acquiredAt: Option<int>,
    expiresAt: Option<int>,
    connection: Option<Connection>,
    credentialSecret: Option<string>)

  /** What a claim has before the operator first writes its status. */
  const BLANK := ClaimStatus(Unset, "", None, None, None, None)

  /** `uid` identifies one incarnation of a claim, `gen` its version within that incarnation. */
  datatype Claim = Claim(uid: nat, gen: nat, spec: ClaimSpec, finalizer: bool, deleting: bool, status: ClaimStatus)

  /** Key pairs are numbered: the private key `n` pairs with the public key `n`. */
  datatype Secret = Secret(username: string, privateKey: Option<nat>)

  /** The scheme and Snowflake's own domain do not matter. */
  function AccountFromUrl(url: string): string {
    TrimSuffix(TrimPrefix(TrimPrefix(url, "https://"), "http://"), ".snowflakecomputing.com")
  }

  function AccountIdentifier(url: string): string {
    Before(AccountFromUrl(url), '.')
  }

  /** The app user on one Snowflake account. */
  datatype AppUser = AppUser(roles: set<string>, slot1: Option<nat>, slot2: Option<nat>)

  /** A configured Snowflake account. */
  datatype Account = Account(
    name: string,
    accountUrl: string,
    warehouse: string,
    database: string,
    schema: string,
    role: string,
    credentialSecretName: string,
    labels: map<string, string>,
    appUserRoles: seq<string>)
  {
    /** The Snowflake account behind the URL. */
    function Site(): string {
      AccountFromUrl(accountUrl)
    }
  }

  /** A managed resource as the provider registry caches it. */
  datatype Resource = Resource(
    name: string,
    labels: map<string, string>,
    credentialSecretName: string,
    metadata: map<string, string>)
}
