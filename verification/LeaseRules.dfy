/** When a lease is free, what taking and releasing it write, and how its window relates to a claim's deadline. */
module LeaseRules {
  import opened Wrappers
  import opened Objects

  const SECOND: int := 1_000_000_000
  const MICROSECOND: int := 1_000
  const HOUR: int := 3_600 * SECOND

  /** Go converts a duration to whole seconds by truncation toward zero. */
  function WholeSeconds(d: int): int {
    if d >= 0 then d / SECOND else -(-d / SECOND)
  }

  /** The part of a duration that whole seconds cannot express; it has the sign of the duration. */
  function SubSecond(d: int): (r: int)
    ensures -SECOND < r < SECOND && (d >= 0 ==> 0 <= r) && (d <= 0 ==> r <= 0)
  {
    d - WholeSeconds(d) * SECOND
  }

  /** A MicroTime is stored with microsecond precision. */
  function StoredMicro(t: int): int {
    t - t % MICROSECOND
  }

  /** A Time is stored with second precision. */
  function StoredSecond(t: int): int {
    t - t % SECOND
  }

  /** No holder, or the recorded window has passed. */
  predicate IsFree(spec: LeaseSpec, now: int) {
    spec.holder.None?
    || (spec.acquireTime.Some? && spec.durationSeconds.Some?
        && now > spec.acquireTime.value + spec.durationSeconds.value * SECOND)
  }

  function Held(holder: string, stamp: int, duration: int): LeaseSpec {
    LeaseSpec(Some(holder), Some(StoredMicro(stamp)), Some(WholeSeconds(duration)))
  }

  /** Holder, time and duration are set together or not at all. */
  predicate AllOrNone(spec: LeaseSpec) {
    (spec.holder.Some? <==> spec.acquireTime.Some?) && (spec.holder.Some? <==> spec.durationSeconds.Some?)
  }

  function Window(spec: LeaseSpec): int
    requires spec.acquireTime.Some? && spec.durationSeconds.Some?
  {
    spec.acquireTime.value + spec.durationSeconds.value * SECOND
  }

  predicate Includes(labels: map<string, string>, required: map<string, string>) {
    forall key | key in required :: key in labels && labels[key] == required[key]
  }

  /** The Go loop over the required labels, in whatever order the map yields them. */
  method MatchesLabels(labels: map<string, string>, required: map<string, string>) returns (matches: bool)
    ensures matches <==> required.Items <= labels.Items
    ensures matches <==> Includes(labels, required)
  {
    if |required| == 0 {
      assert required == map[];
      return true;
    }
    var rest := required.Keys;
    while rest != {}
      invariant rest <= required.Keys
      invariant forall key | key in required.Keys - rest :: key in labels && labels[key] == required[key]
      decreases |rest|
    {
      var key :| key in rest;
      if key !in labels || labels[key] != required[key] {
        assert (key, required[key]) in required.Items && (key, required[key]) !in labels.Items;
        return false;
      }
      rest := rest - {key};
    }
    assert required.Keys - rest == required.Keys;
    return true;
  }

  /** A version that read as free stays free for as long as it is the current one. */
  lemma FreeIsMonotone(spec: LeaseSpec)
    ensures forall t, u | t <= u :: IsFree(spec, t) ==> IsFree(spec, u)
  {
  }

  /** What the claim records when it is bound `bind - stamp` after its lease was stamped. */
  function Deadline(bind: int, duration: int): int {
    bind + duration
  }

  /**
   * Before serialization the claim's deadline differs from the lease's own expiry by the
   * provisioning time plus the part of the duration the lease cannot express, so a lease with
   * a duration that is not negative never outlasts the deadline.
   */
  lemma DeadlineGap(stamp: int, bind: int, duration: int)
    requires stamp <= bind
    ensures var gap := Deadline(bind, duration) - (stamp + WholeSeconds(duration) * SECOND);
            && gap == (bind - stamp) + SubSecond(duration)
            && (bind - stamp) - SECOND < gap < (bind - stamp) + SECOND
            && (0 <= duration ==> 0 <= bind - stamp <= gap)
  {
  }

  /**
   * The stored deadline is cut to whole seconds, the stored acquire time to microseconds.
   * Past the stored deadline the lease reads as free at every instant exactly when the
   * provisioning time and the two lost fractions cover the fraction cut from the deadline.
   */
  lemma StoredDeadlineCoversLease(holder: string, stamp: int, bind: int, duration: int)
    requires stamp <= bind
    ensures (forall t | t > StoredSecond(Deadline(bind, duration)) :: IsFree(Held(holder, stamp, duration), t))
       <==> (bind + duration) % SECOND <= (bind - stamp) + stamp % MICROSECOND + SubSecond(duration)
    ensures bind - stamp >= (if 0 <= duration then SECOND else 2 * SECOND) ==>
              forall t | t > StoredSecond(Deadline(bind, duration)) :: IsFree(Held(holder, stamp, duration), t)
    ensures Window(Held(holder, stamp, duration)) - StoredSecond(Deadline(bind, duration))
          < if 0 <= duration then SECOND else 2 * SECOND
  {
    var d, e := StoredSecond(Deadline(bind, duration)), Window(Held(holder, stamp, duration));
    assert d <= e - 1 ==> d + 1 > d && !IsFree(Held(holder, stamp, duration), d + 1);
  }

  /** The stored deadline can fall before the lease's expiry. */
  lemma StoredDeadlineCanPrecedeLease(holder: string)
    ensures var stamp, bind, duration := 999_999_000, 999_999_500, SECOND;
            StoredSecond(Deadline(bind, duration)) < Window(Held(holder, stamp, duration))
  {
  }
}
