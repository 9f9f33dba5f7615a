/** The lease manager: search, compare-and-swap acquisition, release, creation and the startup release. */
module Leasing {
  import opened Wrappers
  import opened Objects
  import opened Names
  import opened LeaseRules
  import opened Stores
  import opened Accounts

  /** A listed lease, and what the clock reads when the search gets to it. */
  datatype Seen = Seen(lease: Lease, at: int)

  /** The API server's label selection, which keeps the order of the listing. */
  function Select(view: seq<Seen>, selector: map<string, string>): seq<Seen> {
    if view == [] then []
    else (if Includes(view[0].lease.labels, selector) then [view[0]] else []) + Select(view[1..], selector)
  }

  function ProviderSelector(providerType: string): map<string, string> {
    map[MANAGED_BY := MANAGED_BY_VALUE, RESOURCE_TYPE := providerType]
  }

  predicate Available(l: Lease, now: int, required: map<string, string>) {
    IsFree(l.spec, now) && Includes(l.labels, required)
  }

  /** The first lease of a listing that is available when it is looked at. */
  function FirstAvailable(items: seq<Seen>, required: map<string, string>): (r: Option<nat>)
    ensures r.Some? ==> r.value < |items| && Available(items[r.value].lease, items[r.value].at, required)
    ensures r.Some? ==> forall i | 0 <= i < r.value :: !Available(items[i].lease, items[i].at, required)
    ensures r.None? ==> forall i | 0 <= i < |items| :: !Available(items[i].lease, items[i].at, required)
  {
    if items == [] then None
    else if Available(items[0].lease, items[0].at, required) then Some(0)
    else
      var rest := FirstAvailable(items[1..], required);
      assert forall i | 0 < i < |items| :: items[i] == items[1..][i - 1];
      if rest.Some? then Some(rest.value + 1) else None
  }

  /** `view` is what the cached list returned, None if listing failed. */
  function FindFree(view: Option<seq<Seen>>, providerType: string, required: map<string, string>): Option<Lease> {
    if view.None? then None
    else
      var items := Select(view.value, ProviderSelector(providerType));
      var first := FirstAvailable(items, required);
      if first.None? then None else Some(items[first.value].lease)
  }

  predicate Labelled(l: Lease, key: string, value: string) {
    key in l.labels && l.labels[key] == value
  }

  /** Managed, of the provider, without holder or past its window, and carrying the required labels. */
  predicate Candidate(l: Lease, now: int, providerType: string, required: map<string, string>) {
    && Labelled(l, MANAGED_BY, MANAGED_BY_VALUE) && Labelled(l, RESOURCE_TYPE, providerType)
    && IsFree(l.spec, now) && required.Items <= l.labels.Items
  }

  lemma SelectedIsCandidate(l: Lease, now: int, providerType: string, required: map<string, string>)
    ensures Candidate(l, now, providerType, required)
       <==> Includes(l.labels, ProviderSelector(providerType)) && Available(l, now, required)
  {
    ReservedKeysDiffer();
    var selector := ProviderSelector(providerType);
    assert MANAGED_BY in selector && RESOURCE_TYPE in selector;
    ItemsIncluded(l.labels, required);
  }

  lemma ItemsIncluded(labels: map<string, string>, required: map<string, string>)
    ensures required.Items <= labels.Items <==> Includes(labels, required)
  {
    if required.Items <= labels.Items {
      forall key | key in required ensures key in labels && labels[key] == required[key] {
        assert (key, required[key]) in required.Items;
      }
    }
  }

  predicate Suits(s: Seen, providerType: string, required: map<string, string>) {
    Candidate(s.lease, s.at, providerType, required)
  }

  /** `r` is the first candidate of the listing, or None when the listing has no candidate. */
  ghost predicate IsFirstCandidate(view: seq<Seen>, providerType: string, required: map<string, string>,
                                   r: Option<Lease>)
  {
    if r.None? then forall i | 0 <= i < |view| :: !Suits(view[i], providerType, required)
    else exists i :: 0 <= i < |view| && view[i].lease == r.value && Suits(view[i], providerType, required)
                  && forall j | 0 <= j < i :: !Suits(view[j], providerType, required)
  }

  lemma ExtendFirstCandidate(view: seq<Seen>, providerType: string, required: map<string, string>, r: Option<Lease>)
    requires view != [] && !Suits(view[0], providerType, required)
    requires IsFirstCandidate(view[1..], providerType, required, r)
    ensures IsFirstCandidate(view, providerType, required, r)
  {
    var rest := view[1..];
    assert forall i | 0 < i < |view| :: view[i] == rest[i - 1];
    if r.Some? {
      var i :| 0 <= i < |rest| && rest[i].lease == r.value && Suits(rest[i], providerType, required)
               && forall j | 0 <= j < i :: !Suits(rest[j], providerType, required);
      assert view[i + 1].lease == r.value;
    }
  }

  lemma FindFreeSkips(view: seq<Seen>, providerType: string, required: map<string, string>)
    requires view != [] && !Suits(view[0], providerType, required)
    ensures FindFree(Some(view), providerType, required) == FindFree(Some(view[1..]), providerType, required)
  {
    SelectedIsCandidate(view[0].lease, view[0].at, providerType, required);
    var selector := ProviderSelector(providerType);
    var tail := Select(view[1..], selector);
    if Includes(view[0].lease.labels, selector) {
      assert Select(view, selector) == [view[0]] + tail;
      SkipUnavailable(view[0], tail, required);
    } else {
      assert Select(view, selector) == tail;
    }
  }

  /** The search returns the first candidate of the listing, and nothing exactly when there is none. */
  lemma {:induction false} FindFreeIsExact(view: seq<Seen>, providerType: string, required: map<string, string>)
    ensures IsFirstCandidate(view, providerType, required, FindFree(Some(view), providerType, required))
  {
    if view != [] {
      SelectedIsCandidate(view[0].lease, view[0].at, providerType, required);
      if Suits(view[0], providerType, required) {
        assert Select(view, ProviderSelector(providerType))[0] == view[0];
        assert FindFree(Some(view), providerType, required) == Some(view[0].lease);
      } else {
        FindFreeIsExact(view[1..], providerType, required);
        FindFreeSkips(view, providerType, required);
        ExtendFirstCandidate(view, providerType, required, FindFree(Some(view[1..]), providerType, required));
      }
    }
  }

  lemma SkipUnavailable(head: Seen, tail: seq<Seen>, required: map<string, string>)
    requires !Available(head.lease, head.at, required)
    ensures var r, s := FirstAvailable([head] + tail, required), FirstAvailable(tail, required);
            && (r.Some? <==> s.Some?)
            && (s.Some? ==> ([head] + tail)[r.value] == tail[s.value])
  {
    assert ([head] + tail)[1..] == tail;
  }

  /**
   * `read` is what the cached Get returned, None if it failed. The lease is taken only if that
   * version is free at `check` and is still the current one when the write arrives.
   */
  function Take(leases: Leases, read: Option<Lease>, holder: string, duration: int, check: int, stamp: int,
                accepted: bool)
    : (Leases, bool)
  {
    if read.None? || !IsFree(read.value.spec, check) then (leases, false)
    else UpdateLease(leases, read.value.(spec := Held(holder, stamp, duration)), accepted)
  }

  /** Clears the holder without comparing it. */
  function Release(leases: Leases, read: Option<Lease>, accepted: bool): (Leases, bool) {
    if read.None? then (leases, false) else UpdateLease(leases, read.value.(spec := FREE), accepted)
  }

  predicate OtherLeasesSame(leases: Leases, leases': Leases, name: string) {
    leases'.Keys == leases.Keys && forall n | n in leases && n != name :: leases'[n] == leases[n]
  }

  /** A successful acquisition took the lease the store then held, and that lease was free. */
  lemma TakeEffect(leases: Leases, read: Option<Lease>, holder: string, duration: int, check: int, stamp: int,
                   accepted: bool)
    requires read.Some? ==> PossibleRead(leases, read.value)
    ensures var (leases', ok) := Take(leases, read, holder, duration, check, stamp, accepted);
            && (!ok ==> leases' == leases)
            && (ok ==>
                  var name := read.value.name;
                  && read.value == leases[name] && IsFree(leases[name].spec, check)
                  && OtherLeasesSame(leases, leases', name)
                  && leases'[name].spec == Held(holder, stamp, duration)
                  && leases'[name].labels == leases[name].labels && leases'[name].name == leases[name].name)
  {
  }

  lemma ReleaseEffect(leases: Leases, read: Option<Lease>, accepted: bool)
    ensures var (leases', ok) := Release(leases, read, accepted);
            && (!ok ==> leases' == leases)
            && (ok ==>
                  var name := read.value.name;
                  && name in leases && OtherLeasesSame(leases, leases', name)
                  && leases'[name].spec == FREE
                  && leases'[name].labels == leases[name].labels && leases'[name].name == leases[name].name)
            && (read.Some? && accepted && read.value.name in leases && read.value == leases[read.value.name] ==> ok)
  {
  }

  /** The lease of one resource as it is created. */
  function NewLease(providerType: string, r: Resource): Lease {
    Lease(LeaseName(providerType, r.name), LeaseLabels(providerType, r), FREE, 0)
  }

  /** Creates the leases of the resources from position `i` on, up to the first real failure. */
  function Initialize(leases: Leases, providerType: string, resources: seq<Resource>, i: nat, creates: seq<bool>)
    : (Leases, bool)
    requires i <= |resources|
    decreases |resources| - i
  {
    if i == |resources| then (leases, true)
    else
      var (leases', ok) := CreateLease(leases, NewLease(providerType, resources[i]), Accepts(creates, i));
      if !ok then (leases', false) else Initialize(leases', providerType, resources, i + 1, creates)
  }

  predicate Managed(l: Lease) {
    Includes(l.labels, map[MANAGED_BY := MANAGED_BY_VALUE])
  }

  predicate ToRelease(l: Lease) {
    Managed(l) && l.spec.holder.Some?
  }

  function Freed(l: Lease): Lease {
    l.(spec := FREE, version := l.version + 1)
  }

  /** The managed, held leases whose update is not refused are freed; every other lease is untouched. */
  function ReleaseAll(leases: Leases, listed: bool, refused: set<string>): Leases {
    if !listed then leases
    else map n | n in leases :: if ToRelease(leases[n]) && n !in refused then Freed(leases[n]) else leases[n]
  }

  function ManagedNames(leases: Leases): set<string> {
    set n | n in leases && Managed(leases[n])
  }

  class Manager {
    const client: Cluster

    constructor (client: Cluster)
      ensures this.client == client
    {
      this.client := client;
    }

    method InitializeLeasesForProvider(providerType: string, resources: seq<Resource>, creates: seq<bool>)
      returns (ok: bool)
      modifies client`leases
      ensures (client.leases, ok) == Initialize(old(client.leases), providerType, resources, 0, creates)
    {
      for i := 0 to |resources|
        invariant Initialize(client.leases, providerType, resources, i, creates)
               == Initialize(old(client.leases), providerType, resources, 0, creates)
      {
        var leaseName := LeaseName(providerType, resources[i].name);
        var leaseLabels := map[MANAGED_BY := MANAGED_BY_VALUE, RESOURCE_TYPE := providerType,
            RESOURCE_NAME := resources[i].name];
        leaseLabels := leaseLabels + resources[i].labels;
        var created := client.AddLease(Lease(leaseName, leaseLabels, FREE, 0), Accepts(creates, i));
        if !created {
          return false;
        }
      }
      return true;
    }

    /** The found lease and the resource name its label carries. */
    method FindFreeLease(view: Option<seq<Seen>>, providerType: string, required: map<string, string>)
      returns (found: Option<Lease>, resourceName: string)
      ensures found == FindFree(view, providerType, required)
      ensures found.Some? && RESOURCE_NAME in found.value.labels ==> resourceName == found.value.labels[RESOURCE_NAME]
      ensures found.Some? && RESOURCE_NAME !in found.value.labels ==> resourceName == ""
    {
      if view.None? {
        return None, "";
      }
      var items := Select(view.value, ProviderSelector(providerType));
      for i := 0 to |items|
        invariant forall j | 0 <= j < i :: !Available(items[j].lease, items[j].at, required)
      {
        var lease := items[i].lease;
        if !IsFree(lease.spec, items[i].at) {
          continue;
        }
        var matches := MatchesLabels(lease.labels, required);
        if !matches {
          continue;
        }
        resourceName := if RESOURCE_NAME in lease.labels then lease.labels[RESOURCE_NAME] else "";
        return Some(lease), resourceName;
      }
      return None, "";
    }

    method AcquireLease(read: Option<Lease>, holder: string, duration: int, check: int, stamp: int, accepted: bool)
      returns (ok: bool)
      modifies client`leases
      ensures (client.leases, ok) == Take(old(client.leases), read, holder, duration, check, stamp, accepted)
    {
      if read.None? {
        return false;
      }
      var lease := read.value;
      if !IsFree(lease.spec, check) {
        return false;
      }
      lease := lease.(spec := LeaseSpec(Some(holder), Some(StoredMicro(stamp)), Some(WholeSeconds(duration))));
      ok := client.WriteLease(lease, accepted);
    }

    method ReleaseLease(read: Option<Lease>, accepted: bool) returns (ok: bool)
      modifies client`leases
      ensures (client.leases, ok) == Release(old(client.leases), read, accepted)
    {
      if read.None? {
        return false;
      }
      var lease := read.value.(spec := LeaseSpec(None, None, None));
      ok := client.WriteLease(lease, accepted);
    }

    /** The listed leases are visited in whatever order the API server returned them. */
    method ReleaseAllLeases(listed: bool, refused: set<string>)
      requires forall n | n in client.leases :: client.leases[n].name == n
      modifies client`leases
      ensures client.leases == ReleaseAll(old(client.leases), listed, refused)
    {
      if !listed {
        return;
      }
      var items := client.leases;
      var rest := ManagedNames(items);
      ghost var goal := ReleaseAll(items, true, refused);
      while rest != {}
        invariant rest <= ManagedNames(items)
        invariant client.leases.Keys == items.Keys
        invariant forall n | n in items :: client.leases[n] == if n in rest then items[n] else goal[n]
        decreases |rest|
      {
        var name :| name in rest;
        rest := rest - {name};
        var l := items[name];
        if l.spec.holder.None? {
          continue;
        }
        l := l.(spec := LeaseSpec(None, None, None));
        var ok := client.WriteLease(l, name !in refused);
      }
    }
  }
}
