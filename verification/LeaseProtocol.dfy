/**
 * The lease manager under concurrency. Any number of workers interleave; each acquisition is a
 * cached read of any past version with a check, a clock reading, and a version-checked write,
 * with any number of other steps in between.
 */
module LeaseProtocol {
  import opened Wrappers
  import opened Objects
  import opened LeaseRules
  import opened Stores
  import opened Leasing

  /** What a worker remembers between its steps. `stamp` is the acquire time it is about to write. */
  datatype Worker =
    | Idle
    | Checked(read: Lease, holder: string, duration: int, check: int)
    | Stamped(read: Lease, holder: string, duration: int, check: int, stamp: int)
    | Clearing(read: Lease)

  /** One successful write. */
  datatype Entry =
    | Acquired(name: string, holder: string, duration: int, stamp: int, time: int)
    | Released(name: string, time: int)

  /** `past` holds every version of every lease, `log` the successful writes in order. */
  datatype System = System(now: int, leases: Leases, past: map<string, seq<Lease>>, workers: map<nat, Worker>,
                           log: seq<Entry>)

  datatype Step =
    | Tick(t: int)
    | ReadAndCheck(w: nat, name: string, version: nat, holder: string, duration: int)
    | ReadClock(w: nat)
    | WriteAcquire(w: nat, accepted: bool)
    | ReadToRelease(w: nat, name: string, version: nat)
    | WriteRelease(w: nat, accepted: bool)
    | Abandon(w: nat)

  function WorkerOf(s: System, w: nat): Worker {
    if w in s.workers then s.workers[w] else Idle
  }

  predicate Enabled(s: System, e: Step) {
    match e
    case Tick(t) => s.now <= t
    case ReadAndCheck(w, name, version, holder, duration) => WorkerOf(s, w).Idle? && name in s.past
        && version < |s.past[name]|
    case ReadClock(w) => WorkerOf(s, w).Checked?
    case WriteAcquire(w, accepted) => WorkerOf(s, w).Stamped?
    case ReadToRelease(w, name, version) => WorkerOf(s, w).Idle? && name in s.past && version < |s.past[name]|
    case WriteRelease(w, accepted) => WorkerOf(s, w).Clearing?
    case Abandon(w) => true
  }

  /** Records the new version of the lease `name` if it changed. */
  function Remember(past: map<string, seq<Lease>>, leases: Leases, leases': Leases, name: string)
    : map<string, seq<Lease>>
  {
    if name in past && name in leases && name in leases' && leases'[name] != leases[name]
    then past[name := past[name] + [leases'[name]]]
    else past
  }

  function Next(s: System, e: Step): System
    requires Enabled(s, e)
  {
    match e
    case Tick(t) => s.(now := t)
    case ReadAndCheck(w, name, version, holder, duration) =>
      var read := s.past[name][version];
      s.(workers := s.workers[w := if IsFree(read.spec, s.now) then Checked(read, holder, duration, s.now) else Idle])
    case ReadClock(w) =>
      var worker := WorkerOf(s, w);
      s.(workers := s.workers[w := Stamped(worker.read, worker.holder, worker.duration, worker.check, s.now)])
    case WriteAcquire(w, accepted) =>
      var worker := WorkerOf(s, w);
      var name := worker.read.name;
      var (leases, ok) := Take(s.leases, Some(worker.read), worker.holder, worker.duration, worker.check,
          worker.stamp, accepted);
      s.(leases := leases, past := Remember(s.past, s.leases, leases, name), workers := s.workers[w := Idle],
         log := if ok then s.log + [Acquired(name, worker.holder, worker.duration, worker.stamp, s.now)] else s.log)
    case ReadToRelease(w, name, version) => s.(workers := s.workers[w := Clearing(s.past[name][version])])
    case WriteRelease(w, accepted) =>
      var worker := WorkerOf(s, w);
      var name := worker.read.name;
      var (leases, ok) := Release(s.leases, Some(worker.read), accepted);
      s.(leases := leases, past := Remember(s.past, s.leases, leases, name), workers := s.workers[w := Idle],
         log := if ok then s.log + [Released(name, s.now)] else s.log)
    case Abandon(w) => s.(workers := s.workers[w := Idle])
  }

  /** Every version in the past is a possible read of the present. */
  ghost predicate PastSound(s: System) {
    && s.past.Keys == s.leases.Keys
    && (forall n | n in s.leases :: s.leases[n].name == n && s.past[n] != [])
    && forall n, i | n in s.past && 0 <= i < |s.past[n]| ::
        PossibleRead(s.leases, s.past[n][i]) && s.past[n][i].name == n
  }

  /** The present is the last version. */
  ghost predicate PresentIsLast(leases: Leases, past: map<string, seq<Lease>>) {
    forall n | n in leases :: n in past && past[n] != [] && past[n][|past[n]| - 1] == leases[n]
  }

  /** What a worker is about to do rests on a possible read that was free when it was checked. */
  ghost predicate WorkerSound(s: System, worker: Worker) {
    match worker
    case Idle => true
    case Checked(read, holder, duration, check) => PossibleRead(s.leases, read) && IsFree(read.spec, check)
        && check <= s.now
    case Stamped(read, holder, duration, check, stamp) =>
      PossibleRead(s.leases, read) && IsFree(read.spec, check) && check <= stamp <= s.now
    case Clearing(read) => PossibleRead(s.leases, read)
  }

  ghost predicate Sound(s: System) {
    PastSound(s) && PresentIsLast(s.leases, s.past) && forall w | w in s.workers :: WorkerSound(s, s.workers[w])
  }

  lemma WriteSound(s: System, l: Lease, accepted: bool)
    requires PastSound(s) && l.name in s.leases
    requires l.version <= s.leases[l.name].version && l.labels == s.leases[l.name].labels
    ensures var leases := UpdateLease(s.leases, l, accepted).0;
            var s' := s.(leases := leases, past := Remember(s.past, s.leases, leases, l.name));
            && PastSound(s') && (forall r | PossibleRead(s.leases, r) :: PossibleRead(leases, r))
  {
  }

  lemma WriteLast(leases: Leases, past: map<string, seq<Lease>>, l: Lease, accepted: bool)
    requires PresentIsLast(leases, past)
    ensures var leases' := UpdateLease(leases, l, accepted).0;
            PresentIsLast(leases', Remember(past, leases, leases', l.name))
  {
  }

  lemma KeepsWorkers(s: System, s': System, w: nat)
    requires Sound(s) && s'.workers == s.workers[w := Idle] && s'.now == s.now
    requires forall r | PossibleRead(s.leases, r) :: PossibleRead(s'.leases, r)
    ensures forall v | v in s'.workers :: WorkerSound(s', s'.workers[v])
  {
    forall v | v in s'.workers ensures WorkerSound(s', s'.workers[v]) {
      if v != w {
        assert WorkerSound(s, s.workers[v]);
      }
    }
  }

  /** A worker's write of the lease `l` leaves the system sound. */
  lemma WroteSound(s: System, s': System, w: nat, l: Lease, accepted: bool)
    requires Sound(s) && l.name in s.leases
    requires l.version <= s.leases[l.name].version && l.labels == s.leases[l.name].labels
    requires var leases := UpdateLease(s.leases, l, accepted).0;
             s' == s.(leases := leases, past := Remember(s.past, s.leases, leases, l.name),
                 workers := s.workers[w := Idle],
                      log := s'.log)
    ensures Sound(s')
  {
    hide PresentIsLast, WorkerSound, UpdateLease;
    WriteSound(s, l, accepted);
    WriteLast(s.leases, s.past, l, accepted);
    KeepsWorkers(s, s', w);
  }

  lemma StepSound(s: System, e: Step)
    requires Sound(s) && Enabled(s, e)
    ensures Sound(Next(s, e))
  {
    hide PresentIsLast;
    match e
    case WriteAcquire(w, accepted) =>
      var worker := WorkerOf(s, w);
      assert WorkerSound(s, worker);
      var l := worker.read.(spec := Held(worker.holder, worker.stamp, worker.duration));
      WroteSound(s, Next(s, e), w, l, accepted);
    case WriteRelease(w, accepted) =>
      var worker := WorkerOf(s, w);
      assert WorkerSound(s, worker);
      WroteSound(s, Next(s, e), w, worker.read.(spec := FREE), accepted);
    case _ =>
  }

  // The atomic lock that the protocol implements.

  type Specs = map<string, LeaseSpec>

  function SpecsOf(leases: Leases): Specs {
    map n | n in leases :: leases[n].spec
  }

  function SpecAfter(e: Entry): LeaseSpec {
    match e
    case Acquired(name, holder, duration, stamp, time) => Held(holder, stamp, duration)
    case Released(name, time) => FREE
  }

  /** "If it is free now, take it", or a release; None if the lock refuses. */
  function Atomic(specs: Specs, e: Entry): Option<Specs> {
    if e.name !in specs || (e.Acquired? && !IsFree(specs[e.name], e.time)) then None
    else Some(specs[e.name := SpecAfter(e)])
  }

  function Replay(specs: Specs, log: seq<Entry>): Option<Specs> {
    if log == [] then Some(specs)
    else
      var before := Replay(specs, log[..|log| - 1]);
      if before.None? then None else Atomic(before.value, log[|log| - 1])
  }

  /**
   * A step that logs an entry acts as that entry of the atomic lock at this instant; any other step
   * leaves the lock alone.
   */
  lemma StepRefines(s: System, e: Step)
    requires Sound(s) && Enabled(s, e)
    ensures var s' := Next(s, e);
            if s'.log == s.log then SpecsOf(s'.leases) == SpecsOf(s.leases)
            else exists entry :: s'.log == s.log + [entry] && entry.time == s.now
                              && Atomic(SpecsOf(s.leases), entry) == Some(SpecsOf(s'.leases))
  {
    var s' := Next(s, e);
    match e
    case WriteAcquire(w, accepted) =>
      var worker := WorkerOf(s, w);
      assert WorkerSound(s, worker);
      TakeEffect(s.leases, Some(worker.read), worker.holder, worker.duration, worker.check, worker.stamp, accepted);
      if s'.log != s.log {
        var entry := Acquired(worker.read.name, worker.holder, worker.duration, worker.stamp, s.now);
        FreeIsMonotone(worker.read.spec);
        assert s'.log == s.log + [entry];
        assert SpecsOf(s'.leases) == SpecsOf(s.leases)[entry.name := SpecAfter(entry)];
      }
    case WriteRelease(w, accepted) =>
      var worker := WorkerOf(s, w);
      assert WorkerSound(s, worker);
      Leasing.ReleaseEffect(s.leases, Some(worker.read), accepted);
      if s'.log != s.log {
        var entry := Released(worker.read.name, s.now);
        assert s'.log == s.log + [entry];
        assert SpecsOf(s'.leases) == SpecsOf(s.leases)[entry.name := SpecAfter(entry)];
      }
    case _ =>
  }

  ghost predicate Initial(s: System) {
    Sound(s) && s.workers == map[] && s.log == []
  }

  ghost predicate IsRun(ss: seq<System>, es: seq<Step>) {
    && |ss| == |es| + 1 && Initial(ss[0])
    && forall i | 0 <= i < |es| :: Enabled(ss[i], es[i]) && ss[i + 1] == Next(ss[i], es[i])
  }

  lemma {:induction false} RunSound(ss: seq<System>, es: seq<Step>, i: nat)
    requires IsRun(ss, es) && i < |ss|
    ensures Sound(ss[i])
  {
    if i > 0 {
      RunSound(ss, es, i - 1);
      StepSound(ss[i - 1], es[i - 1]);
    }
  }

  /**
   * Stale reads are harmless: in every interleaving, the successful writes replayed on the
   * atomic lock at their write instants are all granted and give the leases of the store.
   */
  lemma {:induction false} RunRefines(ss: seq<System>, es: seq<Step>, i: nat)
    requires IsRun(ss, es) && i < |ss|
    ensures Replay(SpecsOf(ss[0].leases), ss[i].log) == Some(SpecsOf(ss[i].leases))
  {
    if i > 0 {
      RunRefines(ss, es, i - 1);
      RunSound(ss, es, i - 1);
      StepRefines(ss[i - 1], es[i - 1]);
      if ss[i].log != ss[i - 1].log {
        assert ss[i].log[..|ss[i].log| - 1] == ss[i - 1].log;
      }
    }
  }

  // History safety.

  predicate ReleasedBetween(log: seq<Entry>, name: string, i: nat, j: nat)
    requires i <= j <= |log|
  {
    exists m | i < m < j :: log[m] == Released(name, log[m].time)
  }

  /** The lease's last entry before position `n`. */
  function LastBefore(log: seq<Entry>, name: string, n: nat): (r: Option<nat>)
    requires n <= |log|
    ensures r.Some? ==> r.value < n && log[r.value].name == name && forall m | r.value < m < n :: log[m].name != name
    ensures r.None? ==> forall m | 0 <= m < n :: log[m].name != name
  {
    if n == 0 then None else if log[n - 1].name == name then Some(n - 1) else LastBefore(log, name, n - 1)
  }

  ghost predicate Timed(log: seq<Entry>, now: int) {
    && (forall i | 0 <= i < |log| :: log[i].time <= now)
    && forall i, j | 0 <= i < j < |log| :: log[i].time <= log[j].time
  }

  /**
   * Of two acquisitions of a lease without a release in between, the later one came after the
   * window of the earlier.
   */
  ghost predicate WindowsRespected(log: seq<Entry>) {
    forall i, j | 0 <= i < j < |log| && log[i].Acquired? && log[j].Acquired? && log[i].name == log[j].name
                  && !ReleasedBetween(log, log[i].name, i, j) ::
      log[j].time > Window(SpecAfter(log[i]))
  }

  ghost predicate Current(specs: Specs, log: seq<Entry>) {
    forall n | n in specs ::
        var last := LastBefore(log, n, |log|); last.Some? ==> specs[n] == SpecAfter(log[last.value])
  }

  lemma EntryRespects(specs: Specs, log: seq<Entry>, e: Entry)
    requires Current(specs, log) && Timed(log, e.time) && WindowsRespected(log) && Atomic(specs, e).Some?
    ensures WindowsRespected(log + [e])
  {
    var log' := log + [e];
    forall i, j | 0 <= i < j < |log'| && log'[i].Acquired? && log'[j].Acquired? && log'[i].name == log'[j].name
                  && !ReleasedBetween(log', log'[i].name, i, j)
      ensures log'[j].time > Window(SpecAfter(log'[i]))
    {
      assert forall m | 0 <= m < |log| :: log'[m] == log[m];
      if j < |log| {
        assert !ReleasedBetween(log, log[i].name, i, j);
      } else {
        var last := LastBefore(log, e.name, |log|).value;
        assert i <= last;
        if i < last {
          assert log'[last].Acquired?;
          assert !ReleasedBetween(log, log[i].name, i, last);
        }
      }
    }
  }

  lemma EntryCurrent(specs: Specs, log: seq<Entry>, e: Entry)
    requires Current(specs, log) && Atomic(specs, e).Some?
    ensures Current(Atomic(specs, e).value, log + [e])
  {
    var log' := log + [e];
    forall n | n in specs ensures n != e.name ==> LastBefore(log', n, |log'|) == LastBefore(log, n, |log|) {
      if n != e.name {
        SameLast(log, e, n, |log|);
      }
    }
  }

  lemma {:induction false} SameLast(log: seq<Entry>, e: Entry, name: string, n: nat)
    requires n <= |log|
    ensures LastBefore(log + [e], name, n) == LastBefore(log, name, n)
  {
    if n > 0 {
      SameLast(log, e, name, n - 1);
    }
  }

  ghost predicate HistorySound(s: System) {
    Current(SpecsOf(s.leases), s.log) && Timed(s.log, s.now) && WindowsRespected(s.log)
  }

  lemma StepHistory(s: System, e: Step)
    requires Sound(s) && Enabled(s, e) && HistorySound(s)
    ensures HistorySound(Next(s, e))
  {
    var s' := Next(s, e);
    StepRefines(s, e);
    if s'.log != s.log {
      var entry :| && s'.log == s.log + [entry] && entry.time == s.now
                   && Atomic(SpecsOf(s.leases), entry) == Some(SpecsOf(s'.leases));
      EntryRespects(SpecsOf(s.leases), s.log, entry);
      EntryCurrent(SpecsOf(s.leases), s.log, entry);
    }
  }

  lemma {:induction false} RunHistorySound(ss: seq<System>, es: seq<Step>, i: nat)
    requires IsRun(ss, es) && i < |ss|
    ensures HistorySound(ss[i])
  {
    hide Sound, Enabled, Next, HistorySound;
    if i == 0 {
      EmptyHistory(ss[0]);
    } else {
      RunHistorySound(ss, es, i - 1);
      RunSound(ss, es, i - 1);
      StepHistory(ss[i - 1], es[i - 1]);
    }
  }

  lemma EmptyHistory(s: System)
    requires s.log == []
    ensures HistorySound(s)
  {
  }

  /**
   * Lease history safety: in every interleaving, between two successful acquisitions of a
   * lease there is a successful release, or the second came after the end of the window the
   * first one wrote.
   */
  lemma RunHistorySafe(ss: seq<System>, es: seq<Step>, n: nat, i: nat, j: nat)
    requires IsRun(ss, es) && n < |ss| && i < j < |ss[n].log|
    requires ss[n].log[i].Acquired? && ss[n].log[j].Acquired? && ss[n].log[i].name == ss[n].log[j].name
    ensures ReleasedBetween(ss[n].log, ss[n].log[i].name, i, j) || ss[n].log[j].time > Window(SpecAfter(ss[n].log[i]))
  {
    RunHistorySound(ss, es, n);
  }
}
