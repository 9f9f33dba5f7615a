/** The provider registry: which provider types exist and which resources each manages. */
module Registry {
  import opened Wrappers
  import opened Objects

  /** The first resource of that name. */
  function Find(resources: seq<Resource>, name: string): (r: Option<nat>)
    ensures r.Some? ==> r.value < |resources| && resources[r.value].name == name
    ensures r.Some? ==> forall i | 0 <= i < r.value :: resources[i].name != name
    ensures r.None? ==> forall i | 0 <= i < |resources| :: resources[i].name != name
  {
    if resources == [] then None
    else if resources[0].name == name then Some(0)
    else
      var rest := Find(resources[1..], name);
      assert forall i | 0 < i < |resources| :: resources[i] == resources[1..][i - 1];
      if rest.Some? then Some(rest.value + 1) else None
  }

  /** Lexicographic order on strings. */
  predicate Below(s: string, t: string) {
    s == "" || (t != "" && (s[0] < t[0] || (s[0] == t[0] && Below(s[1..], t[1..]))))
  }

  lemma {:induction false} BelowTotal(s: string, t: string)
    ensures Below(s, t) || Below(t, s)
  {
    if s != "" && t != "" && s[0] == t[0] {
      BelowTotal(s[1..], t[1..]);
    }
  }

  lemma {:induction false} BelowTransitive(s: string, t: string, u: string)
    requires Below(s, t) && Below(t, u)
    ensures Below(s, u)
  {
    if s != "" && s[0] == t[0] == u[0] {
      BelowTransitive(s[1..], t[1..], u[1..]);
    }
  }

  ghost predicate Ascending(names: seq<string>) {
    forall i, j | 0 <= i < j < |names| :: Below(names[i], names[j])
  }

  /** The library sort, one element at a time. */
  function Insert(name: string, sorted: seq<string>): (r: seq<string>)
    requires Ascending(sorted)
    ensures Ascending(r) && multiset(r) == multiset(sorted) + multiset{name}
  {
    if sorted == [] then [name]
    else if Below(name, sorted[0]) then
      assert forall i | 0 <= i < |sorted| :: Below(name, sorted[i]) by {
        forall i | 0 < i < |sorted| ensures Below(name, sorted[i]) {
          BelowTransitive(name, sorted[0], sorted[i]);
        }
      }
      [name] + sorted
    else
      var tail := Insert(name, sorted[1..]);
      assert Ascending([sorted[0]] + tail) by {
        BelowTotal(name, sorted[0]);
        forall x | x in tail ensures Below(sorted[0], x) {
          assert x in multiset(tail);
          assert x == name || x in sorted[1..];
        }
      }
      assert sorted == [sorted[0]] + sorted[1..];
      [sorted[0]] + tail
  }

  function Sort(names: seq<string>): (r: seq<string>)
    ensures Ascending(r) && multiset(r) == multiset(names)
  {
    if names == [] then []
    else
      assert names == [names[0]] + names[1..];
      Insert(names[0], Sort(names[1..]))
  }

  /** Every name occurs once. */
  ghost predicate Enumerates(names: seq<string>, keys: set<string>) {
    multiset(names) == multiset(keys)
  }

  class Registry<Provider> {
    var providers: map<string, Provider>
    var resourcesByProvider: map<string, seq<Resource>>

    constructor ()
      ensures providers == map[] && resourcesByProvider == map[]
    {
      providers, resourcesByProvider := map[], map[];
    }

    /** Refuses a name that is already registered and then changes nothing. */
    method Register(name: string, provider: Provider) returns (ok: bool)
      modifies this`providers
      ensures ok <==> name !in old(providers)
      ensures providers == if ok then old(providers)[name := provider] else old(providers)
    {
      if name in providers {
        return false;
      }
      providers := providers[name := provider];
      return true;
    }

    function Get(providerType: string): (r: Option<Provider>)
      reads this
      ensures r.Some? <==> providerType in providers
    {
      if providerType in providers then Some(providers[providerType]) else None
    }

    /** All registered names, each once, in ascending order. */
    method List() returns (names: seq<string>)
      ensures Ascending(names) && Enumerates(names, providers.Keys)
    {
      names := [];
      var rest := providers.Keys;
      while rest != {}
        invariant rest <= providers.Keys
        invariant multiset(names) + multiset(rest) == multiset(providers.Keys)
        decreases |rest|
      {
        var name :| name in rest;
        names := names + [name];
        rest := rest - {name};
      }
      names := Sort(names);
    }

    method SetResources(providerType: string, resources: seq<Resource>)
      modifies this`resourcesByProvider
      ensures resourcesByProvider == old(resourcesByProvider)[providerType := resources]
    {
      resourcesByProvider := resourcesByProvider[providerType := resources];
    }

    function GetResources(providerType: string): seq<Resource>
      reads this
    {
      if providerType in resourcesByProvider then resourcesByProvider[providerType] else []
    }

    /** A pointer into the cached slice is modelled as the position it points at. */
    method GetResource(providerType: string, resourceName: string) returns (r: Option<nat>)
      ensures r == Find(GetResources(providerType), resourceName)
    {
      var resources := GetResources(providerType);
      for i := 0 to |resources|
        invariant forall j | 0 <= j < i :: resources[j].name != resourceName
      {
        if resources[i].name == resourceName {
          return Some(i);
        }
      }
      return None;
    }
  }
}
