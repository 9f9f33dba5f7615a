/**
 * What the Snowflake provider does to the app users and the per-claim Secrets, as functions
 * of the store and of the outcome of every call it makes.
 */
module Snowflake {
  import opened Wrappers
  import opened Text
  import opened Objects
  import opened Names
  import opened Stores
  import opened Accounts

  const APP_USER := "test_runner_appuser"

  // Client calls on one account. A statement that is refused has no effect.

  function EnsureUser(users: Users, url: string, accepted: bool): (Users, bool) {
    if !accepted then (users, false)
    else if url in users then (users, true)
    else (users[url := AppUser({}, None, None)], true)
  }

  function GrantRole(users: Users, url: string, role: string, accepted: bool): (Users, bool) {
    if !accepted || url !in users then (users, false)
    else (users[url := users[url].(roles := users[url].roles + {role})], true)
  }

  function RevokeRole(users: Users, url: string, role: string, accepted: bool): Users {
    if !accepted || url !in users then users
    else users[url := users[url].(roles := users[url].roles - {role})]
  }

  /** Sets slot 1; clearing slot 2 afterwards is best effort. */
  function SetPublicKey(users: Users, url: string, key: nat, setOk: bool, clearOk: bool): (Users, bool) {
    if !setOk || url !in users then (users, false)
    else (users[url := users[url].(slot1 := Some(key), slot2 := if clearOk then None else users[url].slot2)], true)
  }

  function ClearSlot(users: Users, url: string, slot: nat, accepted: bool): Users {
    if !accepted || url !in users then users
    else if slot == 1 then users[url := users[url].(slot1 := None)]
    else users[url := users[url].(slot2 := None)]
  }

  function ClearPublicKeys(users: Users, url: string, clear: seq<bool>): Users {
    ClearSlot(ClearSlot(users, url, 1, Accepts(clear, 0)), url, 2, Accepts(clear, 1))
  }

  /** Grants the roles from position `i` on, up to the first refusal. */
  function GrantRoles(users: Users, url: string, roles: seq<string>, i: nat, grants: seq<bool>): (Users, bool)
    requires i <= |roles|
    decreases |roles| - i
  {
    if i == |roles| then (users, true)
    else
      var (users', ok) := GrantRole(users, url, roles[i], Accepts(grants, i));
      if !ok then (users', false) else GrantRoles(users', url, roles, i + 1, grants)
  }

  /** Revokes the roles from position `i` on, passing over refusals. */
  function RevokeRoles(users: Users, url: string, roles: seq<string>, i: nat, revokes: seq<bool>): Users
    requires i <= |roles|
    decreases |roles| - i
  {
    if i == |roles| then users
    else RevokeRoles(RevokeRole(users, url, roles[i], Accepts(revokes, i)), url, roles, i + 1, revokes)
  }

  /** The admin secret is there and complete. */
  predicate AdminReady(secrets: Secrets, ns: string, name: string) {
    var key := SecretKey(ns, name);
    key in secrets && secrets[key].username != "" && secrets[key].privateKey.Some?
  }

  /** The admin Secret is read complete and the connection made with it is accepted. */
  predicate Connects(secrets: Secrets, ns: string, name: string, adminGet: bool, connect: bool) {
    adminGet && AdminReady(secrets, ns, name) && connect
  }

  /** Outcomes of the calls made while acquiring; no key means that key generation failed. */
  datatype AcquireCalls = AcquireCalls(
    adminGet: bool, connect: bool, ensure: bool, grants: seq<bool>, key: Option<nat>,
    setKey: bool, clearSlot2: bool, secretGet: bool, secretWrite: bool)

  function AcquireResource(accounts: seq<Account>, st: Store, r: Resource, claimName: string, calls: AcquireCalls)
    : (Store, Option<string>)
  {
    var found := FindAccount(accounts, r.name);
    if found.None? then (st, None)
    else
      var account := accounts[found.value];
      var url := account.Site();
      if !calls.adminGet || !AdminReady(st.secrets, Before(claimName, '/'), r.credentialSecretName)
          || !calls.connect then
        (st, None)
      else
        var (ensured, userOk) := EnsureUser(st.users, url, calls.ensure);
        if !userOk then (st.(users := ensured), None)
        else
          var (granted, rolesOk) := GrantRoles(ensured, url, account.appUserRoles, 0, calls.grants);
          if !rolesOk || calls.key.None? then (st.(users := granted), None)
          else
            var (keyed, keyOk) := SetPublicKey(granted, url, calls.key.value, calls.setKey, calls.clearSlot2);
            if !keyOk || !calls.secretGet || !calls.secretWrite then (st.(users := keyed), None)
            else
              var secret := AppSecret(claimName);
              (st.(users := keyed, secrets := st.secrets[secret := Secret(APP_USER, calls.key)]), Some(secret.name))
  }

  function GetConnectionDetails(accounts: seq<Account>, r: Resource): Option<Connection> {
    var found := FindAccount(accounts, r.name);
    if found.None? then None else Some(ConnectionOf(accounts[found.value]))
  }

  /** Outcomes of the calls made while releasing. */
  datatype ReleaseCalls = ReleaseCalls(
    adminGet: bool, connect: bool, secretGet: bool, revokes: seq<bool>, clear: seq<bool>, secretDelete: bool)

  function ReleaseResource(accounts: seq<Account>, st: Store, ns: string, r: Resource, claimName: string,
                           calls: ReleaseCalls)
    : (Store, bool)
  {
    var found := FindAccount(accounts, r.name);
    if found.None? then (st, false)
    else if !calls.adminGet || !AdminReady(st.secrets, ns, r.credentialSecretName) || !calls.connect then (st, false)
    else
      var account := accounts[found.value];
      var secret := AppSecret(claimName);
      var seen := calls.secretGet && secret in st.secrets;
      var revoked := RevokeRoles(st.users, account.Site(), account.appUserRoles, 0, calls.revokes);
      var cleared := ClearPublicKeys(revoked, account.Site(), calls.clear);
      (st.(users := cleared, secrets := if seen && calls.secretDelete then st.secrets - {secret} else st.secrets), true)
  }

  /** Outcomes for one account during the startup cleanup. */
  datatype ScrubCalls = ScrubCalls(adminGet: bool, connect: bool, revokes: seq<bool>, clear: seq<bool>)

  function ScrubAccount(secrets: Secrets, users: Users, ns: string, a: Account, calls: ScrubCalls): Users {
    if !calls.adminGet || !AdminReady(secrets, ns, a.credentialSecretName) || !calls.connect then users
    else ClearPublicKeys(RevokeRoles(users, a.Site(), a.appUserRoles, 0, calls.revokes), a.Site(), calls.clear)
  }

  const ALL_OK := ScrubCalls(true, true, [], [])

  function CallsAt(calls: seq<ScrubCalls>, i: nat): ScrubCalls {
    if i < |calls| then calls[i] else ALL_OK
  }

  /** Scrubs the accounts from position `i` on. */
  function ScrubAccounts(secrets: Secrets, users: Users, ns: string, accounts: seq<Account>, i: nat,
                         calls: seq<ScrubCalls>): Users
    requires i <= |accounts|
    decreases |accounts| - i
  {
    if i == |accounts| then users
    else ScrubAccounts(secrets, ScrubAccount(secrets, users, ns, accounts[i], CallsAt(calls, i)), ns, accounts,
        i + 1, calls)
  }

  /** The per-claim Secrets of the operator's namespace. */
  function AppSecretsIn(secrets: Secrets, ns: string): set<SecretKey> {
    set key | key in secrets && key.ns == ns && HasPrefix(key.name, SECRET_PREFIX)
  }

  /** `secretRefused` are the Secrets whose deletion fails. */
  datatype CleanupCalls = CleanupCalls(accounts: seq<ScrubCalls>, secretList: bool, secretRefused: set<SecretKey>)

  function CleanupAllClaims(accounts: seq<Account>, st: Store, ns: string, calls: CleanupCalls): Store {
    var users := ScrubAccounts(st.secrets, st.users, ns, accounts, 0, calls.accounts);
    var deleted := if calls.secretList then AppSecretsIn(st.secrets, ns) - calls.secretRefused else {};
    var secrets := st.secrets - deleted;
    st.(users := users, secrets := secrets)
  }

  // What the functions above do to one account.

  /** No key can log in and none of the account's configured roles is granted. */
  ghost predicate Scrubbed(users: Users, a: Account) {
    a.Site() in users ==>
      var u := users[a.Site()];
      u.slot1.None? && u.slot2.None? && forall role | role in a.appUserRoles :: role !in u.roles
  }

  ghost predicate SameElsewhere(users: Users, users': Users, url: string) {
    forall u | u != url :: (u in users <==> u in users') && (u in users ==> users[u] == users'[u])
  }

  /** The role is granted from position `i` on: no grant up to its own is refused. */
  predicate Granted(roles: seq<string>, i: nat, grants: seq<bool>, role: string) {
    exists j | i <= j < |roles| :: roles[j] == role && forall m | i <= m <= j :: Accepts(grants, m)
  }

  lemma GrantedStep(roles: seq<string>, i: nat, grants: seq<bool>)
    requires i < |roles|
    ensures forall role :: Granted(roles, i, grants, role)
                           <==> Accepts(grants, i) && (roles[i] == role || Granted(roles, i + 1, grants, role))
  {
    forall role | Accepts(grants, i) && Granted(roles, i + 1, grants, role) ensures Granted(roles, i, grants, role) {
      var j :| i + 1 <= j < |roles| && roles[j] == role && forall m | i + 1 <= m <= j :: Accepts(grants, m);
      assert forall m | i <= m <= j :: Accepts(grants, m);
    }
  }

  /** Granting adds the roles before the first refusal and nothing else; it succeeds iff nothing is refused. */
  lemma {:induction false} GrantRolesEffect(users: Users, url: string, roles: seq<string>, i: nat, grants: seq<bool>)
    requires i <= |roles| && url in users
    ensures var (users', ok) := GrantRoles(users, url, roles, i, grants);
            && SameElsewhere(users, users', url) && url in users'
            && users'[url].slot1 == users[url].slot1 && users'[url].slot2 == users[url].slot2
            && (forall role :: role in users'[url].roles
                               <==> role in users[url].roles || Granted(roles, i, grants, role))
            && (ok <==> forall j | i <= j < |roles| :: Accepts(grants, j))
            && (ok ==> forall j | i <= j < |roles| :: roles[j] in users'[url].roles)
    decreases |roles| - i
  {
    if i < |roles| {
      GrantedStep(roles, i, grants);
      var (users', ok) := GrantRole(users, url, roles[i], Accepts(grants, i));
      if ok {
        GrantRolesEffect(users', url, roles, i + 1, grants);
      }
    }
  }

  /** Some accepted statement from position `i` on revokes the role. */
  predicate Revoked(roles: seq<string>, i: nat, revokes: seq<bool>, role: string) {
    exists j | i <= j < |roles| :: roles[j] == role && Accepts(revokes, j)
  }

  lemma {:induction false} RevokeRolesEffect(users: Users, url: string, roles: seq<string>, i: nat, revokes: seq<bool>)
    requires i <= |roles|
    ensures var users' := RevokeRoles(users, url, roles, i, revokes);
            && SameElsewhere(users, users', url) && (url in users' <==> url in users)
            && (url in users ==>
                  && users'[url].slot1 == users[url].slot1 && users'[url].slot2 == users[url].slot2
                  && forall role :: role in users'[url].roles
                                    <==> role in users[url].roles && !Revoked(roles, i, revokes, role))
    decreases |roles| - i
  {
    if i < |roles| {
      var users1 := RevokeRole(users, url, roles[i], Accepts(revokes, i));
      RevokeRolesEffect(users1, url, roles, i + 1, revokes);
      assert forall role :: Revoked(roles, i, revokes, role)
                            <==> (roles[i] == role && Accepts(revokes, i)) || Revoked(roles, i + 1, revokes, role);
    }
  }

  /** A release or cleanup never adds anything to an account. */
  ghost predicate Shrinks(users: Users, users': Users) {
    && users'.Keys == users.Keys
    && forall u | u in users ::
         && users'[u].roles <= users[u].roles
         && (users'[u].slot1 == users[u].slot1 || users'[u].slot1.None?)
         && (users'[u].slot2 == users[u].slot2 || users'[u].slot2.None?)
  }

  lemma ShrinkKeepsScrubbed(users: Users, users': Users, a: Account)
    requires Shrinks(users, users') && Scrubbed(users, a)
    ensures Scrubbed(users', a)
  {
  }

  /** Exactly what a cleanup with these outcomes does to its app user. */
  ghost predicate Cleaned(u: AppUser, u': AppUser, roles: seq<string>, revokes: seq<bool>, clear: seq<bool>) {
    && u'.slot1 == (if Accepts(clear, 0) then None else u.slot1)
    && u'.slot2 == (if Accepts(clear, 1) then None else u.slot2)
    && forall role :: role in u'.roles <==> role in u.roles && !Revoked(roles, 0, revokes, role)
  }

  lemma ScrubEffect(users: Users, url: string, roles: seq<string>, revokes: seq<bool>, clear: seq<bool>)
    ensures var users' := ClearPublicKeys(RevokeRoles(users, url, roles, 0, revokes), url, clear);
            && SameElsewhere(users, users', url) && Shrinks(users, users')
            && (url in users ==> Cleaned(users[url], users'[url], roles, revokes, clear))
  {
    RevokeRolesEffect(users, url, roles, 0, revokes);
  }

  /** Every key slot in use is cleared and every configured role that is granted is revoked. */
  ghost predicate CleansUp(users: Users, a: Account, revokes: seq<bool>, clear: seq<bool>) {
    a.Site() in users ==>
      var u := users[a.Site()];
      && (u.slot1.None? || Accepts(clear, 0)) && (u.slot2.None? || Accepts(clear, 1))
      && forall role | role in a.appUserRoles && role in u.roles :: Revoked(a.appUserRoles, 0, revokes, role)
  }

  /** A cleanup leaves the account scrubbed exactly when it reached everything there was. */
  lemma CleanedIsScrubbedIff(users: Users, users': Users, a: Account, revokes: seq<bool>, clear: seq<bool>)
    requires users'.Keys == users.Keys
    requires a.Site() in users ==> Cleaned(users[a.Site()], users'[a.Site()], a.appUserRoles, revokes, clear)
    ensures Scrubbed(users', a) <==> CleansUp(users, a, revokes, clear)
  {
  }

  /** What a successful acquisition leaves on the account and in the claim's Secret. */
  ghost predicate Provisioned(st: Store, a: Account, claimName: string, key: nat) {
    && a.Site() in st.users
    && st.users[a.Site()].slot1 == Some(key)
    && (forall role | role in a.appUserRoles :: role in st.users[a.Site()].roles)
    && AppSecret(claimName) in st.secrets
    && st.secrets[AppSecret(claimName)] == Secret(APP_USER, Some(key))
  }

  /** The guards an acquisition passes before it has set the app user's key. */
  predicate GrantsAll(a: Account, calls: AcquireCalls) {
    forall j | 0 <= j < |a.appUserRoles| :: Accepts(calls.grants, j)
  }

  predicate ReachesUser(secrets: Secrets, claimName: string, adminName: string, calls: AcquireCalls) {
    Connects(secrets, Before(claimName, '/'), adminName, calls.adminGet, calls.connect) && calls.ensure
  }

  predicate SetsKey(secrets: Secrets, claimName: string, adminName: string, a: Account, calls: AcquireCalls) {
    ReachesUser(secrets, claimName, adminName, calls) && GrantsAll(a, calls) && calls.key.Some? && calls.setKey
  }

  predicate StoresSecret(secrets: Secrets, claimName: string, adminName: string, a: Account, calls: AcquireCalls) {
    SetsKey(secrets, claimName, adminName, a, calls) && calls.secretGet && calls.secretWrite
  }

  /** A first role is granted, or the key is set. */
  predicate LeavesTraces(secrets: Secrets, claimName: string, adminName: string, a: Account, calls: AcquireCalls) {
    || SetsKey(secrets, claimName, adminName, a, calls)
    || (ReachesUser(secrets, claimName, adminName, calls) && |a.appUserRoles| > 0 && Accepts(calls.grants, 0))
  }

  /** Every call of an acquisition succeeds. */
  ghost predicate AcquireAllOk(a: Account, calls: AcquireCalls) {
    && calls.adminGet && calls.connect && calls.ensure && calls.key.Some?
    && calls.setKey && calls.clearSlot2 && calls.secretGet && calls.secretWrite
    && forall j | 0 <= j < |a.appUserRoles| :: Accepts(calls.grants, j)
  }

  /** The account an acquisition of `r` works on. */
  function AccountOf(accounts: seq<Account>, r: Resource): Account
    requires FindAccount(accounts, r.name).Some?
  {
    accounts[FindAccount(accounts, r.name).value]
  }

  /** An acquisition stays on its account, and writes the claim's Secret only when it succeeds. */
  lemma AcquireFrame(accounts: seq<Account>, st: Store, r: Resource, claimName: string, calls: AcquireCalls)
    requires FindAccount(accounts, r.name).Some?
    ensures var (st', secret) := AcquireResource(accounts, st, r, claimName, calls);
            && st'.leases == st.leases && st'.claims == st.claims
            && SameElsewhere(st.users, st'.users, AccountOf(accounts, r).Site())
            && if secret.None? then st'.secrets == st.secrets
               else secret == Some(AppSecret(claimName).name)
                    && st'.secrets == st.secrets[AppSecret(claimName) := Secret(APP_USER, calls.key)]
  {
    var a := AccountOf(accounts, r);
    var (ensured, userOk) := EnsureUser(st.users, a.Site(), calls.ensure);
    if userOk {
      GrantRolesEffect(ensured, a.Site(), a.appUserRoles, 0, calls.grants);
    }
  }

  /** The app users after an acquisition, read off its guards. */
  function UsersAfter(st: Store, claimName: string, adminName: string, a: Account, calls: AcquireCalls): Users {
    if !ReachesUser(st.secrets, claimName, adminName, calls) then st.users
    else
      var granted := GrantRoles(EnsureUser(st.users, a.Site(), true).0, a.Site(), a.appUserRoles, 0, calls.grants).0;
      if SetsKey(st.secrets, claimName, adminName, a, calls)
      then SetPublicKey(granted, a.Site(), calls.key.value, true, calls.clearSlot2).0 else granted
  }

  lemma AcquireByGuards(accounts: seq<Account>, st: Store, r: Resource, claimName: string, calls: AcquireCalls)
    requires FindAccount(accounts, r.name).Some?
    ensures var (st', secret) := AcquireResource(accounts, st, r, claimName, calls);
            var a := AccountOf(accounts, r);
            && st'.users == UsersAfter(st, claimName, r.credentialSecretName, a, calls)
            && (secret.Some? <==> StoresSecret(st.secrets, claimName, r.credentialSecretName, a, calls))
  {
    hide AccountFromUrl, AdminReady, AppSecret, Before;
    var a := AccountOf(accounts, r);
    GrantRolesEffect(EnsureUser(st.users, a.Site(), true).0, a.Site(), a.appUserRoles, 0, calls.grants);
  }

  /** The app user at `url` as `CREATE USER IF NOT EXISTS` leaves it. */
  function Existing(users: Users, url: string): AppUser {
    if url in users then users[url] else AppUser({}, None, None)
  }

  /**
   * Exactly what an acquisition does to its account, read off its guards: it succeeds iff the
   * Secret is stored, sets slot 1 and clears slot 2 iff those statements are reached and
   * accepted, and adds exactly the roles before the first refused grant. Hence it leaves the
   * account scrubbed iff it was scrubbed and neither a role was granted nor the key set.
   */
  lemma AcquireExact(accounts: seq<Account>, st: Store, r: Resource, claimName: string, calls: AcquireCalls)
    requires FindAccount(accounts, r.name).Some?
    ensures var (st', secret) := AcquireResource(accounts, st, r, claimName, calls);
            var a := AccountOf(accounts, r);
            var u, sets := Existing(st.users, a.Site()),
                SetsKey(st.secrets, claimName, r.credentialSecretName, a, calls);
            && (secret.Some? <==> StoresSecret(st.secrets, claimName, r.credentialSecretName, a, calls))
            && (if !ReachesUser(st.secrets, claimName, r.credentialSecretName, calls) then st'.users == st.users
                else && a.Site() in st'.users
                     && st'.users[a.Site()].slot1 == (if sets then calls.key else u.slot1)
                     && st'.users[a.Site()].slot2 == (if sets && calls.clearSlot2 then None else u.slot2)
                     && forall role :: role in st'.users[a.Site()].roles
                                       <==> role in u.roles || Granted(a.appUserRoles, 0, calls.grants, role))
            && (Scrubbed(st'.users, a) <==>
                  Scrubbed(st.users, a) && !LeavesTraces(st.secrets, claimName, r.credentialSecretName, a, calls))
            && (a.Site() in st.users ==>
                  && a.Site() in st'.users && st.users[a.Site()].roles <= st'.users[a.Site()].roles
                  && st'.users[a.Site()].slot1 == if sets then calls.key else st.users[a.Site()].slot1)
  {
    hide AcquireResource, AccountFromUrl, Connects, FindAccount, GrantRoles;
    AcquireByGuards(accounts, st, r, claimName, calls);
    var a := AccountOf(accounts, r);
    GrantRolesEffect(EnsureUser(st.users, a.Site(), true).0, a.Site(), a.appUserRoles, 0, calls.grants);
    if |a.appUserRoles| > 0 {
      GrantedStep(a.appUserRoles, 0, calls.grants);
      assert Granted(a.appUserRoles, 0, calls.grants, a.appUserRoles[0]) <==> Accepts(calls.grants, 0);
    }
  }

  predicate LogsIn(users: Users, url: string, key: nat) {
    url in users && (users[url].slot1 == Some(key) || users[url].slot2 == Some(key))
  }

  /** After a successful acquisition that also cleared slot 2, the key in the claim's Secret and no other logs in. */
  lemma OnlyOwnKeyLogsIn(accounts: seq<Account>, st: Store, r: Resource, claimName: string, calls: AcquireCalls)
    requires FindAccount(accounts, r.name).Some? && calls.clearSlot2
    requires AcquireResource(accounts, st, r, claimName, calls).1.Some?
    ensures var st' := AcquireResource(accounts, st, r, claimName, calls).0;
            && AppSecret(claimName) in st'.secrets
            && st'.secrets[AppSecret(claimName)].username == "test_runner_appuser"
            && forall key: nat :: LogsIn(st'.users, AccountOf(accounts, r).Site(), key)
                             <==> st'.secrets[AppSecret(claimName)].privateKey == Some(key)
  {
    hide AcquireResource, AccountFromUrl, AppSecret, Connects, Scrubbed;
    AcquireExact(accounts, st, r, claimName, calls);
    AcquireFrame(accounts, st, r, claimName, calls);
  }

  /** A successful acquisition leaves working credentials. */
  lemma AcquireProvisions(accounts: seq<Account>, st: Store, r: Resource, claimName: string, calls: AcquireCalls)
    requires FindAccount(accounts, r.name).Some?
    ensures var (st', secret) := AcquireResource(accounts, st, r, claimName, calls);
            secret.Some? ==> calls.key.Some? && Provisioned(st', AccountOf(accounts, r), claimName, calls.key.value)
  {
    var a := AccountOf(accounts, r);
    var (ensured, userOk) := EnsureUser(st.users, a.Site(), calls.ensure);
    if userOk {
      GrantRolesEffect(ensured, a.Site(), a.appUserRoles, 0, calls.grants);
      var (granted, rolesOk) := GrantRoles(ensured, a.Site(), a.appUserRoles, 0, calls.grants);
      if rolesOk {
        assert forall role | role in a.appUserRoles :: role in granted[a.Site()].roles;
      }
    }
  }

  /**
   * When no call fails, an acquisition succeeds exactly when the admin Secret is in the claim's
   * namespace; without that Secret it changes nothing.
   */
  lemma AcquireSucceeds(accounts: seq<Account>, st: Store, r: Resource, claimName: string, calls: AcquireCalls)
    requires FindAccount(accounts, r.name).Some?
    ensures var (st', secret) := AcquireResource(accounts, st, r, claimName, calls);
            && (AcquireAllOk(AccountOf(accounts, r), calls) ==>
                  (secret.Some? <==> AdminReady(st.secrets, Before(claimName, '/'), r.credentialSecretName)))
            && (!AdminReady(st.secrets, Before(claimName, '/'), r.credentialSecretName) ==> st' == st && secret.None?)
  {
    var a := AccountOf(accounts, r);
    var (ensured, userOk) := EnsureUser(st.users, a.Site(), calls.ensure);
    if userOk {
      GrantRolesEffect(ensured, a.Site(), a.appUserRoles, 0, calls.grants);
    }
  }

  ghost predicate ReleaseAllOk(a: Account, calls: ReleaseCalls) {
    && calls.adminGet && calls.connect && calls.secretGet && calls.secretDelete
    && Accepts(calls.clear, 0) && Accepts(calls.clear, 1)
    && forall j | 0 <= j < |a.appUserRoles| :: Accepts(calls.revokes, j)
  }

  /** A release works on one account and one Secret, and does nothing at all without its admin connection. */
  lemma ReleaseEffect(accounts: seq<Account>, st: Store, ns: string, r: Resource, claimName: string,
                      calls: ReleaseCalls)
    requires FindAccount(accounts, r.name).Some?
    ensures var (st', ok) := ReleaseResource(accounts, st, ns, r, claimName, calls);
            var a := accounts[FindAccount(accounts, r.name).value];
            && st'.leases == st.leases && st'.claims == st.claims
            && SameElsewhere(st.users, st'.users, a.Site()) && Shrinks(st.users, st'.users)
            && (ok <==> Connects(st.secrets, ns, r.credentialSecretName, calls.adminGet, calls.connect))
            && (ok && a.Site() in st.users ==>
                  Cleaned(st.users[a.Site()], st'.users[a.Site()], a.appUserRoles, calls.revokes, calls.clear))
            && (!ok ==> st'.users == st.users)
            && st'.secrets == (if ok && calls.secretGet && calls.secretDelete
                               then st.secrets - {AppSecret(claimName)} else st.secrets)
  {
    hide AccountFromUrl, AdminReady, AppSecret;
    var a := accounts[FindAccount(accounts, r.name).value];
    ScrubEffect(st.users, a.Site(), a.appUserRoles, calls.revokes, calls.clear);
  }

  ghost predicate ScrubAllOk(a: Account, calls: ScrubCalls) {
    && calls.adminGet && calls.connect && Accepts(calls.clear, 0) && Accepts(calls.clear, 1)
    && forall j | 0 <= j < |a.appUserRoles| :: Accepts(calls.revokes, j)
  }

  lemma {:induction false} ScrubAccountsEffect(secrets: Secrets, users: Users, ns: string, accounts: seq<Account>,
                                               i: nat, calls: seq<ScrubCalls>)
    requires i <= |accounts|
    ensures var users' := ScrubAccounts(secrets, users, ns, accounts, i, calls);
            && Shrinks(users, users')
            && forall j | i <= j < |accounts| && ScrubAllOk(accounts[j], CallsAt(calls, j))
                          && AdminReady(secrets, ns, accounts[j].credentialSecretName) ::
                 Scrubbed(users', accounts[j])
    decreases |accounts| - i
  {
    hide AccountFromUrl;
    if i < |accounts| {
      var a, c := accounts[i], CallsAt(calls, i);
      var users1 := ScrubAccount(secrets, users, ns, a, c);
      ScrubEffect(users, a.Site(), a.appUserRoles, c.revokes, c.clear);
      ScrubAccountsEffect(secrets, users1, ns, accounts, i + 1, calls);
      var users' := ScrubAccounts(secrets, users1, ns, accounts, i + 1, calls);
      if ScrubAllOk(a, c) && AdminReady(secrets, ns, a.credentialSecretName) {
        assert Scrubbed(users1, a);
        ShrinkKeepsScrubbed(users1, users', a);
      }
    }
  }

  /** The startup cleanup of the account `a` clears this key slot, or revokes this role, of the app user at `url`. */
  predicate ClearsSlot(secrets: Secrets, ns: string, a: Account, c: ScrubCalls, url: string, slot: nat) {
    a.Site() == url && Connects(secrets, ns, a.credentialSecretName, c.adminGet, c.connect) && Accepts(c.clear, slot)
  }

  predicate RevokesRole(secrets: Secrets, ns: string, a: Account, c: ScrubCalls, url: string, role: string) {
    && a.Site() == url && Connects(secrets, ns, a.credentialSecretName, c.adminGet, c.connect)
    && Revoked(a.appUserRoles, 0, c.revokes, role)
  }

  predicate SlotCleared(secrets: Secrets, ns: string, accounts: seq<Account>, i: nat, calls: seq<ScrubCalls>,
                        url: string, slot: nat)
  {
    exists j | i <= j < |accounts| :: ClearsSlot(secrets, ns, accounts[j], CallsAt(calls, j), url, slot)
  }

  predicate RoleRevoked(secrets: Secrets, ns: string, accounts: seq<Account>, i: nat, calls: seq<ScrubCalls>,
                        url: string, role: string)
  {
    exists j | i <= j < |accounts| :: RevokesRole(secrets, ns, accounts[j], CallsAt(calls, j), url, role)
  }

  lemma ScrubAccountExact(secrets: Secrets, users: Users, ns: string, a: Account, c: ScrubCalls, url: string)
    requires url in users
    ensures var users' := ScrubAccount(secrets, users, ns, a, c);
            && url in users'
            && users'[url].slot1 == (if ClearsSlot(secrets, ns, a, c, url, 0) then None else users[url].slot1)
            && users'[url].slot2 == (if ClearsSlot(secrets, ns, a, c, url, 1) then None else users[url].slot2)
            && forall role :: role in users'[url].roles
                              <==> role in users[url].roles && !RevokesRole(secrets, ns, a, c, url, role)
  {
    hide AccountFromUrl, AdminReady;
    ScrubEffect(users, a.Site(), a.appUserRoles, c.revokes, c.clear);
  }

  /** Exactly what the startup loop leaves of each app user, also where accounts share one. */
  lemma {:induction false} ScrubAccountsExact(secrets: Secrets, users: Users, ns: string, accounts: seq<Account>,
                                              i: nat, calls: seq<ScrubCalls>, url: string)
    requires i <= |accounts| && url in users
    ensures var users' := ScrubAccounts(secrets, users, ns, accounts, i, calls);
            && url in users'
            && users'[url].slot1 == (if SlotCleared(secrets, ns, accounts, i, calls, url, 0) then None
                else users[url].slot1)
            && users'[url].slot2 == (if SlotCleared(secrets, ns, accounts, i, calls, url, 1) then None
                else users[url].slot2)
            && forall role :: role in users'[url].roles
                              <==> role in users[url].roles && !RoleRevoked(secrets, ns, accounts, i, calls, url, role)
    decreases |accounts| - i
  {
    hide ScrubAccount, ClearsSlot, RevokesRole;
    if i < |accounts| {
      var a, c := accounts[i], CallsAt(calls, i);
      ScrubAccountExact(secrets, users, ns, a, c, url);
      ScrubAccountsExact(secrets, ScrubAccount(secrets, users, ns, a, c), ns, accounts, i + 1, calls, url);
      assert forall slot :: SlotCleared(secrets, ns, accounts, i, calls, url, slot)
                            <==> ClearsSlot(secrets, ns, a, c, url, slot)
                                 || SlotCleared(secrets, ns, accounts, i + 1, calls, url, slot);
      assert forall role :: RoleRevoked(secrets, ns, accounts, i, calls, url, role)
                            <==> RevokesRole(secrets, ns, a, c, url, role)
                                 || RoleRevoked(secrets, ns, accounts, i + 1, calls, url, role);
    }
  }
}
