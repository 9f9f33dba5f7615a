/** The Snowflake provider and its client, call by call. */
module Provider {
  import opened Wrappers
  import opened Text
  import opened Objects
  import opened Names
  import opened Stores
  import opened Accounts
  import opened Snowflake

  /** A connection to one account, made with admin credentials. */
  class Client {
    const cluster: Cluster
    const url: string

    constructor (cluster: Cluster, accountUrl: string)
      ensures this.cluster == cluster && url == AccountFromUrl(accountUrl)
    {
      this.cluster, url := cluster, AccountFromUrl(accountUrl);
    }

    method EnsureUser(accepted: bool) returns (ok: bool)
      modifies cluster`users
      ensures (cluster.users, ok) == Snowflake.EnsureUser(old(cluster.users), url, accepted)
    {
      if accepted && url !in cluster.users {
        cluster.users := cluster.users[url := AppUser({}, None, None)];
      }
      return accepted;
    }

    method GrantRole(role: string, accepted: bool) returns (ok: bool)
      modifies cluster`users
      ensures (cluster.users, ok) == Snowflake.GrantRole(old(cluster.users), url, role, accepted)
    {
      if !accepted || url !in cluster.users {
        return false;
      }
      var user := cluster.users[url];
      cluster.users := cluster.users[url := user.(roles := user.roles + {role})];
      return true;
    }

    method RevokeRole(role: string, accepted: bool)
      modifies cluster`users
      ensures cluster.users == Snowflake.RevokeRole(old(cluster.users), url, role, accepted)
    {
      if accepted && url in cluster.users {
        var user := cluster.users[url];
        cluster.users := cluster.users[url := user.(roles := user.roles - {role})];
      }
    }

    method SetPublicKey(key: nat, setOk: bool, clearOk: bool) returns (ok: bool)
      modifies cluster`users
      ensures (cluster.users, ok) == Snowflake.SetPublicKey(old(cluster.users), url, key, setOk, clearOk)
    {
      if !setOk || url !in cluster.users {
        return false;
      }
      cluster.users := cluster.users[url := cluster.users[url].(slot1 := Some(key))];
      if clearOk {
        cluster.users := cluster.users[url := cluster.users[url].(slot2 := None)];
        assert cluster.users == old(cluster.users)[url := old(cluster.users[url]).(slot1 := Some(key), slot2 := None)];
      }
      return true;
    }

    /** Unsets slot 1, then slot 2; a refusal of either is passed over. */
    method ClearPublicKeys(clear: seq<bool>)
      modifies cluster`users
      ensures cluster.users == Snowflake.ClearPublicKeys(old(cluster.users), url, clear)
    {
      for i := 0 to 2
        invariant i == 0 ==> cluster.users == old(cluster.users)
        invariant i == 1 ==> cluster.users == ClearSlot(old(cluster.users), url, 1, Accepts(clear, 0))
        invariant i == 2 ==> cluster.users == Snowflake.ClearPublicKeys(old(cluster.users), url, clear)
      {
        if Accepts(clear, i) && url in cluster.users {
          var user := cluster.users[url];
          cluster.users := cluster.users[url := if i == 0 then user.(slot1 := None) else user.(slot2 := None)];
        }
      }
    }

    method RevokeRoles(roles: seq<string>, revokes: seq<bool>)
      modifies cluster`users
      ensures cluster.users == Snowflake.RevokeRoles(old(cluster.users), url, roles, 0, revokes)
    {
      for i := 0 to |roles|
        invariant Snowflake.RevokeRoles(cluster.users, url, roles, i, revokes)
               == Snowflake.RevokeRoles(old(cluster.users), url, roles, 0, revokes)
      {
        RevokeRole(roles[i], Accepts(revokes, i));
      }
    }
  }

  datatype ConfigError =
    | Unreadable
    | NoAccounts
    | MissingName(index: nat)
    | MissingUrl(name: string)
    | MissingSecret(name: string)

  /** The resource carries what the account is configured with. */
  predicate Describes(r: Resource, a: Account) {
    && r.name == a.name && r.labels == a.labels && r.credentialSecretName == a.credentialSecretName
    && r.metadata.Keys == {"accountUrl", "warehouse", "database", "schema", "role"}
    && r.metadata["accountUrl"] == a.accountUrl && r.metadata["warehouse"] == a.warehouse
    && r.metadata["database"] == a.database && r.metadata["schema"] == a.schema && r.metadata["role"] == a.role
  }

  /** The error tells the first thing missing from the configuration. */
  predicate FirstFault(parsed: Option<seq<Account>>, error: ConfigError) {
    if parsed.None? then error == Unreadable
    else if parsed.value == [] then error == NoAccounts
    else exists i | 0 <= i < |parsed.value| ::
           && (forall j | 0 <= j < i ::
                 parsed.value[j].name != "" && parsed.value[j].accountUrl != ""
                     && parsed.value[j].credentialSecretName != "")
           && Faulty(parsed.value[i], i, error)
  }

  predicate Faulty(a: Account, index: nat, error: ConfigError) {
    if a.name == "" then error == MissingName(index)
    else if a.accountUrl == "" then error == MissingUrl(a.name)
    else a.credentialSecretName == "" && error == MissingSecret(a.name)
  }

  class SnowflakeProvider {
    const cluster: Cluster
    var accounts: seq<Account>
    var namespace: string

    constructor (cluster: Cluster)
      ensures this.cluster == cluster && accounts == [] && namespace == ""
    {
      this.cluster, accounts, namespace := cluster, [], "";
    }

    function Name(): string {
      PROVIDER
    }

    /** `parsed` is the account list in the ConfigMap, None if reading or parsing it failed. */
    method Initialize(namespace: string, parsed: Option<seq<Account>>) returns (r: Result<seq<Resource>, ConfigError>)
      modifies this
      ensures this.namespace == namespace
      ensures r.Success? <==> parsed.Some? && parsed.value != []
                              && forall a | a in parsed.value ::
                                   a.name != "" && a.accountUrl != "" && a.credentialSecretName != ""
      ensures r.Success? ==> accounts == parsed.value && r.value == ResourcesOf(accounts)
      ensures r.Success? ==> |r.value| == |accounts|
                             && forall i | 0 <= i < |accounts| :: Describes(r.value[i], accounts[i])
      ensures r.Failure? ==> accounts == old(accounts) && FirstFault(parsed, r.error)
    {
      this.namespace := namespace;
      if parsed.None? {
        return Failure(Unreadable);
      }
      var config := parsed.value;
      if |config| == 0 {
        return Failure(NoAccounts);
      }
      for i := 0 to |config|
        invariant forall j | 0 <= j < i :: Complete(config[j])
        invariant accounts == old(accounts) && this.namespace == namespace
      {
        if config[i].name == "" {
          assert config[i] in config && Faulty(config[i], i, MissingName(i));
          return Failure(MissingName(i));
        }
        if config[i].accountUrl == "" {
          assert config[i] in config && Faulty(config[i], i, MissingUrl(config[i].name));
          return Failure(MissingUrl(config[i].name));
        }
        if config[i].credentialSecretName == "" {
          assert config[i] in config && Faulty(config[i], i, MissingSecret(config[i].name));
          return Failure(MissingSecret(config[i].name));
        }
      }
      accounts := config;
      var resources := [];
      for i := 0 to |config|
        invariant resources == ResourcesOf(config)[..i]
        invariant accounts == config && this.namespace == namespace
      {
        var a := config[i];
        resources := resources + [Resource(a.name, a.labels, a.credentialSecretName,
          map["accountUrl" := a.accountUrl, "warehouse" := a.warehouse, "database" := a.database,
              "schema" := a.schema, "role" := a.role])];
      }
      return Success(resources);
    }

    method FindAccountByName(name: string) returns (found: Option<Account>)
      ensures found == var i := FindAccount(accounts, name); if i.None? then None else Some(accounts[i.value])
    {
      for i := 0 to |accounts|
        invariant forall j | 0 <= j < i :: accounts[j].name != name
      {
        if accounts[i].name == name {
          return Some(accounts[i]);
        }
      }
      return None;
    }

    method GetConnectionDetails(r: Resource) returns (details: Option<Connection>)
      ensures details == Snowflake.GetConnectionDetails(accounts, r)
    {
      var account := FindAccountByName(r.name);
      if account.None? {
        return None;
      }
      var a := account.value;
      return Some(Connection(a.accountUrl, a.warehouse, a.database, a.schema, a.role, AccountIdentifier(a.accountUrl)));
    }

    /** Returns the name of the per-claim Secret, None on any error. */
    method AcquireResource(r: Resource, claimName: string, calls: AcquireCalls) returns (secretName: Option<string>)
      modifies cluster
      ensures (cluster.State(), secretName)
          == Snowflake.AcquireResource(accounts, old(cluster.State()), r, claimName, calls)
    {
      hide AccountFromUrl;
      var account := FindAccountByName(r.name);
      if account.None? {
        return None;
      }
      var adminKey := SecretKey(Before(claimName, '/'), r.credentialSecretName);
      if !calls.adminGet || adminKey !in cluster.secrets {
        return None;
      }
      var admin := cluster.secrets[adminKey];
      if admin.username == "" || admin.privateKey.None? {
        return None;
      }
      if !calls.connect {
        return None;
      }
      var sfClient := new Client(cluster, account.value.accountUrl);
      var ensured := sfClient.EnsureUser(calls.ensure);
      if !ensured {
        return None;
      }
      var roles := account.value.appUserRoles;
      ghost var start := cluster.users;
      for i := 0 to |roles|
        invariant GrantRoles(cluster.users, account.value.Site(), roles, i, calls.grants)
               == GrantRoles(start, account.value.Site(), roles, 0, calls.grants)
        invariant cluster.State() == old(cluster.State()).(users := cluster.users)
      {
        var granted := sfClient.GrantRole(roles[i], Accepts(calls.grants, i));
        if !granted {
          return None;
        }
      }
      if calls.key.None? {
        return None;
      }
      var keySet := sfClient.SetPublicKey(calls.key.value, calls.setKey, calls.clearSlot2);
      if !keySet {
        return None;
      }
      var name := SECRET_PREFIX + ReplaceAll(claimName, '/', "-");
      var secretKey := SecretKey(Before(claimName, '/'), name);
      if !calls.secretGet || !calls.secretWrite {
        return None;
      }
      cluster.secrets := cluster.secrets[secretKey := Secret(APP_USER, calls.key)];
      return Some(name);
    }

    method ReleaseResource(ns: string, r: Resource, claimName: string, calls: ReleaseCalls) returns (ok: bool)
      modifies cluster
      ensures (cluster.State(), ok)
          == Snowflake.ReleaseResource(accounts, old(cluster.State()), ns, r, claimName, calls)
    {
      hide AccountFromUrl;
      var account := FindAccountByName(r.name);
      if account.None? {
        return false;
      }
      var adminKey := SecretKey(ns, r.credentialSecretName);
      if !calls.adminGet || adminKey !in cluster.secrets {
        return false;
      }
      var admin := cluster.secrets[adminKey];
      if admin.username == "" || admin.privateKey.None? || !calls.connect {
        return false;
      }
      var adminClient := new Client(cluster, account.value.accountUrl);
      var secretKey := SecretKey(Before(claimName, '/'), SECRET_PREFIX + ReplaceAll(claimName, '/', "-"));
      var seen := calls.secretGet && secretKey in cluster.secrets;
      adminClient.RevokeRoles(account.value.appUserRoles, calls.revokes);
      adminClient.ClearPublicKeys(calls.clear);
      if seen && calls.secretDelete {
        cluster.secrets := cluster.secrets - {secretKey};
      }
      return true;
    }

    /** Deletes the per-claim Secrets of the namespace, passing over refusals. */
    method DeleteAppSecrets(ns: string, refused: set<SecretKey>)
      modifies cluster`secrets
      ensures cluster.secrets == old(cluster.secrets) - (AppSecretsIn(old(cluster.secrets), ns) - refused)
    {
      var items := cluster.secrets;
      var rest := items.Keys;
      while rest != {}
        invariant rest <= items.Keys
        invariant cluster.secrets == items - (AppSecretsIn(items, ns) - refused - rest)
        decreases |rest|
      {
        var key :| key in rest;
        rest := rest - {key};
        if key.ns != ns || !HasPrefix(key.name, SECRET_PREFIX) {
          continue;
        }
        if key !in refused {
          cluster.secrets := cluster.secrets - {key};
        }
      }
      assert AppSecretsIn(items, ns) - refused - {} == AppSecretsIn(items, ns) - refused;
    }

    /** Startup: scrubs every account it can reach, then deletes the per-claim Secrets of the namespace. */
    method CleanupAllClaims(ns: string, calls: CleanupCalls)
      modifies cluster
      ensures cluster.State() == Snowflake.CleanupAllClaims(accounts, old(cluster.State()), ns, calls)
    {
      ghost var before := cluster.State();
      for i := 0 to |accounts|
        invariant cluster.State() == before.(users := cluster.users)
        invariant ScrubAccounts(before.secrets, cluster.users, ns, accounts, i, calls.accounts)
               == ScrubAccounts(before.secrets, before.users, ns, accounts, 0, calls.accounts)
      {
        var c := CallsAt(calls.accounts, i);
        var adminKey := SecretKey(ns, accounts[i].credentialSecretName);
        if !c.adminGet || adminKey !in cluster.secrets {
          continue;
        }
        var admin := cluster.secrets[adminKey];
        if admin.username == "" || admin.privateKey.None? || !c.connect {
          continue;
        }
        var adminClient := new Client(cluster, accounts[i].accountUrl);
        adminClient.RevokeRoles(accounts[i].appUserRoles, c.revokes);
        adminClient.ClearPublicKeys(c.clear);
      }
      if !calls.secretList {
        return;
      }
      DeleteAppSecrets(ns, calls.secretRefused);
    }
  }
}
