/** The configured Snowflake accounts, the resources made from them, and the two lookups by name. */
module Accounts {
  import opened Wrappers
  import opened Objects
  import opened Names
  import opened Registry

  /** The only provider type the program registers. */
  const PROVIDER := "snowflake"
  const MANAGED_BY := "app.kubernetes.io/managed-by"
  const MANAGED_BY_VALUE := "resource-pool-operator"
  const RESOURCE_TYPE := "pool.dataverse.redhat.com/resource-type"
  const RESOURCE_NAME := "pool.dataverse.redhat.com/resource-name"

  predicate Complete(a: Account) {
    a.name != "" && a.accountUrl != "" && a.credentialSecretName != ""
  }

  function ResourceOf(a: Account): Resource {
    Resource(a.name, a.labels, a.credentialSecretName,
             map["accountUrl" := a.accountUrl, "warehouse" := a.warehouse, "database" := a.database,
                 "schema" := a.schema, "role" := a.role])
  }

  function ResourcesOf(accounts: seq<Account>): seq<Resource> {
    seq(|accounts|, i requires 0 <= i < |accounts| => ResourceOf(accounts[i]))
  }

  function ConnectionOf(a: Account): Connection {
    Connection(a.accountUrl, a.warehouse, a.database, a.schema, a.role, AccountIdentifier(a.accountUrl))
  }

  /** The first account of that name. */
  function FindAccount(accounts: seq<Account>, name: string): (r: Option<nat>)
    ensures r.Some? ==> r.value < |accounts| && accounts[r.value].name == name
    ensures r.Some? ==> forall i | 0 <= i < r.value :: accounts[i].name != name
    ensures r.None? ==> forall i | 0 <= i < |accounts| :: accounts[i].name != name
  {
    if accounts == [] then None
    else if accounts[0].name == name then Some(0)
    else
      var rest := FindAccount(accounts[1..], name);
      assert forall i | 0 < i < |accounts| :: accounts[i] == accounts[1..][i - 1];
      if rest.Some? then Some(rest.value + 1) else None
  }

  /** The registry and the provider resolve every name alike, duplicates in the configuration included. */
  lemma LookupsAgree(accounts: seq<Account>, name: string)
    ensures Find(ResourcesOf(accounts), name) == FindAccount(accounts, name)
    ensures FindAccount(accounts, name).Some? <==> exists a :: a in accounts && a.name == name
  {
    var resources := ResourcesOf(accounts);
    assert forall i | 0 <= i < |accounts| :: resources[i].name == accounts[i].name;
    var f, g := Find(resources, name), FindAccount(accounts, name);
    if f.Some? && g.Some? {
      assert !(f.value < g.value) && !(g.value < f.value);
    }
    if exists a :: a in accounts && a.name == name {
      var a :| a in accounts && a.name == name;
      var i :| 0 <= i < |accounts| && accounts[i] == a;
    }
  }

  predicate Reserved(key: string) {
    key == MANAGED_BY || key == RESOURCE_TYPE || key == RESOURCE_NAME
  }

  /** The labels of a resource's lease: the resource's own labels are copied over the three managed ones. */
  function LeaseLabels(providerType: string, r: Resource): map<string, string> {
    map[MANAGED_BY := MANAGED_BY_VALUE, RESOURCE_TYPE := providerType, RESOURCE_NAME := r.name] + r.labels
  }

  /** No reserved key is given another value than the managed one. */
  predicate KeepsReserved(providerType: string, r: Resource) {
    && (MANAGED_BY in r.labels ==> r.labels[MANAGED_BY] == MANAGED_BY_VALUE)
    && (RESOURCE_TYPE in r.labels ==> r.labels[RESOURCE_TYPE] == providerType)
    && (RESOURCE_NAME in r.labels ==> r.labels[RESOURCE_NAME] == r.name)
  }

  lemma ReservedKeysDiffer()
    ensures MANAGED_BY != RESOURCE_TYPE && MANAGED_BY != RESOURCE_NAME && RESOURCE_TYPE != RESOURCE_NAME
  {
    assert RESOURCE_TYPE[0] == 'p' && RESOURCE_NAME[0] == 'p' && MANAGED_BY[0] == 'a';
    assert RESOURCE_TYPE[|RESOURCE_TYPE| - 4] == 't' && RESOURCE_NAME[|RESOURCE_NAME| - 4] == 'n';
    assert |RESOURCE_TYPE| == |RESOURCE_NAME|;
  }

  /**
   * A lease carries the three managed labels with their own values exactly when the resource
   * overrides none of them.
   */
  lemma LeaseLabelsIff(providerType: string, r: Resource)
    ensures var labels := LeaseLabels(providerType, r);
            && MANAGED_BY in labels && RESOURCE_TYPE in labels && RESOURCE_NAME in labels
            && (KeepsReserved(providerType, r) <==>
                  && labels[MANAGED_BY] == MANAGED_BY_VALUE && labels[RESOURCE_TYPE] == providerType
                  && labels[RESOURCE_NAME] == r.name)
            && forall key | key in r.labels :: key in labels && labels[key] == r.labels[key]
  {
    ReservedKeysDiffer();
  }

  /** What the pool assumes of its configuration. */
  ghost predicate ValidConfig(accounts: seq<Account>) {
    && (forall a | a in accounts :: Complete(a))
    && (forall a | a in accounts :: !HasAppSecretPrefix(a.credentialSecretName))
    && (forall a, key | a in accounts && key in a.labels :: !Reserved(key))
    && (forall a, b | a in accounts && b in accounts && a.name != b.name :: a.Site() != b.Site())
  }

  predicate HasAppSecretPrefix(name: string) {
    SECRET_PREFIX <= name
  }

  lemma LabelsOfLease(accounts: seq<Account>, i: nat)
    requires ValidConfig(accounts) && i < |accounts|
    ensures var labels := LeaseLabels(PROVIDER, ResourcesOf(accounts)[i]);
            && MANAGED_BY in labels && labels[MANAGED_BY] == MANAGED_BY_VALUE
            && RESOURCE_TYPE in labels && labels[RESOURCE_TYPE] == PROVIDER
            && RESOURCE_NAME in labels && labels[RESOURCE_NAME] == accounts[i].name
  {
    var a := accounts[i];
    assert a in accounts;
    assert Reserved(MANAGED_BY) && Reserved(RESOURCE_TYPE) && Reserved(RESOURCE_NAME);
    assert MANAGED_BY !in a.labels && RESOURCE_TYPE !in a.labels && RESOURCE_NAME !in a.labels;
    LeaseLabelsIff(PROVIDER, ResourcesOf(accounts)[i]);
  }
}
