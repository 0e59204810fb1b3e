/**
 list, listForGameVersion and Get of moddb/client.go as one protocol: any number of callers check
 the caches, join or start the shared flight of their key, and wait or leave, while flights fetch,
 write the caches and deliver. Every interleaving of these atomic steps is a run.
 */
module Flights {
  import opened ModdbModels
  import opened Options
  import opened SharedCache

  /** A successful flight's write: what was fetched for `key`, replied and written when. */
  datatype Write = Write(key: Key, value: Value, repliedAt: int, at: int)

  datatype Phase = Fetching | Replied(value: Value, repliedAt: int) | Written(write: Write) | Broken

  /** `stale` is the copy of the caller that leads the flight, read when the log had `readAt` writes. */
  datatype Flight = Flight(key: Key, stale: seq<Mod>, leader: nat, readAt: nat, phase: Phase)

  /** What a caller gets; the write, the flight's leader and its read position are history. */
  datatype Outcome =
    | Fresh(write: Write)
    | StaleError(mods: seq<Mod>, leader: nat, readAt: nat)
    | Error(leader: nat, readAt: nat)
    | Canceled

  /** `at` is the time of the caller's cache check. */
  datatype Caller =
    | Missed(key: Key, at: int, readAt: nat, stale: seq<Mod>)
    | Waiting(key: Key, at: int, flight: nat)
    | Ready(key: Key, at: int, outcome: Outcome)
    | Finished(key: Key, at: int, outcome: Outcome)

  /**
   `group` is the singleflight map, `flights` the fetching goroutines by number. `log`, `started`
   and `completed` are history: the writes, and the keys of all flights started and completed.
   */
  datatype State = State(now: int, cache: map<Key, Write>, group: map<Key, nat>, flights: map<nat, Flight>,
                         callers: map<nat, Caller>, log: seq<Write>, started: seq<Key>, completed: seq<Key>)

  function Init(now: int): State { State(now, map[], map[], map[], map[], [], [], []) }

  /** What the caches hold. */
  function Holds(c: map<Key, Write>, k: Key): Option<Cached> {
    if k in c then Some(Cached(c[k].value, c[k].at)) else Initially(k)
  }

  function Store(c: map<Key, Write>, w: Write): map<Key, Write> {
    c + map k | k in Aliases(w.key, w.value) :: w
  }

  /** The cache of the protocol changes as the client's caches do under StoreCatalog and its siblings. */
  lemma StoreIsAfter(c: map<Key, Write>, w: Write, k: Key)
    ensures Holds(Store(c, w), k) == After(Holds(c, k), k, w.key, w.value, w.at)
  {
  }

  /** What the upstream answers when it is asked for a key at a time. */
  type Upstream = (int, Key) -> Option<Value>

  // ----- steps -----

  datatype Step =
    | Tick(d: nat)
    | Check(c: nat, key: Key)  // the critical section under the read lock
    | Join(c: nat)             // DoChan
    | Reply(f: nat)            // the fetch succeeds
    | Break(f: nat)            // the fetch fails
    | WriteCache(f: nat)       // the critical section under the write lock
    | Complete(f: nat)         // the flight leaves the group and delivers
    | Receive(c: nat)          // the caller takes the result
    | Leave(c: nat)            // the caller's context is done

  predicate Enabled(s: State, step: Step, up: Upstream) {
    match step
    case Tick(_) => true
    case Check(c, _) => c !in s.callers
    case Join(c) => c in s.callers && s.callers[c].Missed?
    case Reply(f) => f in s.flights && s.flights[f].phase.Fetching? && up(s.now, s.flights[f].key).Some?
    case Break(f) => f in s.flights && s.flights[f].phase.Fetching?
    case WriteCache(f) => f in s.flights && s.flights[f].phase.Replied?
    case Complete(f) => f in s.flights && (s.flights[f].phase.Written? || s.flights[f].phase.Broken?)
    case Receive(c) => c in s.callers && s.callers[c].Ready?
    case Leave(c) => c in s.callers && (s.callers[c].Waiting? || s.callers[c].Ready?)
  }

  function Delivered(f: Flight): Outcome {
    match f.phase
    case Written(w) => Fresh(w)
    case _ => if f.stale != [] then StaleError(f.stale, f.leader, f.readAt) else Error(f.leader, f.readAt)
  }

  function Deliver(callers: map<nat, Caller>, f: nat, o: Outcome): map<nat, Caller> {
    map c | c in callers ::
      if callers[c].Waiting? && callers[c].flight == f then Ready(callers[c].key, callers[c].at, o) else callers[c]
  }

  function Apply(s: State, step: Step, up: Upstream): State
    requires Enabled(s, step, up)
  {
    match step
    case Tick(d) => s.(now := s.now + d)
    case Check(c, key) =>
      s.(callers := s.callers[c :=
        if Hit(Holds(s.cache, key), key, s.now) && key in s.cache then Finished(key, s.now, Fresh(s.cache[key]))
        else Missed(key, s.now, |s.log|, StaleOf(Holds(s.cache, key), key))])
    case Join(c) =>
      var m := s.callers[c];
      if m.key in s.group then
        s.(callers := s.callers[c := Waiting(m.key, m.at, s.group[m.key])])
      else
        var f := |s.started|;
        s.(callers := s.callers[c := Waiting(m.key, m.at, f)],
           group := s.group[m.key := f],
           flights := s.flights[f := Flight(m.key, m.stale, c, m.readAt, Fetching)],
           started := s.started + [m.key])
    case Reply(f) =>
      s.(flights := s.flights[f := s.flights[f].(phase := Replied(up(s.now, s.flights[f].key).value, s.now))])
    case Break(f) => s.(flights := s.flights[f := s.flights[f].(phase := Broken)])
    case WriteCache(f) =>
      var w := Write(s.flights[f].key, s.flights[f].phase.value, s.flights[f].phase.repliedAt, s.now);
      s.(flights := s.flights[f := s.flights[f].(phase := Written(w))], cache := Store(s.cache, w), log := s.log + [w])
    case Complete(f) =>
      s.(flights := s.flights - {f}, group := s.group - {s.flights[f].key},
         callers := Deliver(s.callers, f, Delivered(s.flights[f])), completed := s.completed + [s.flights[f].key])
    case Receive(c) => s.(callers := s.callers[c := Finished(s.callers[c].key, s.callers[c].at, s.callers[c].outcome)])
    case Leave(c) => s.(callers := s.callers[c := Finished(s.callers[c].key, s.callers[c].at, Canceled)])
  }

  // ----- the caches are the log of successful fetches -----

  /** The last of the first `n` writes that stored something under `k`. */
  function LastWrite(log: seq<Write>, n: nat, k: Key): Option<Write>
    requires n <= |log|
  {
    if n == 0 then None
    else if k in Aliases(log[n - 1].key, log[n - 1].value) then Some(log[n - 1])
    else LastWrite(log, n - 1, k)
  }

  /** What the caches held under `k` after the first `n` writes. */
  function Held(log: seq<Write>, n: nat, k: Key): Option<Cached>
    requires n <= |log|
  {
    match LastWrite(log, n, k)
    case Some(w) => Some(Cached(w.value, w.at))
    case None => Initially(k)
  }

  lemma {:induction false} LastWriteAppend(log: seq<Write>, w: Write, n: nat, k: Key)
    requires n <= |log|
    ensures LastWrite(log + [w], n, k) == LastWrite(log, n, k)
  {
    if n > 0 { LastWriteAppend(log, w, n - 1, k); }
  }

  lemma {:induction false} LastWriteIsLogged(log: seq<Write>, n: nat, k: Key)
    requires n <= |log|
    ensures LastWrite(log, n, k).Some? ==>
              LastWrite(log, n, k).value in log &&
              k in Aliases(LastWrite(log, n, k).value.key, LastWrite(log, n, k).value.value)
  {
    if n > 0 { LastWriteIsLogged(log, n - 1, k); }
  }

  // ----- the invariant -----

  ghost predicate CacheInv(s: State) {
    forall k :: (if k in s.cache then Some(s.cache[k]) else None) == LastWrite(s.log, |s.log|, k)
  }

  /** Writes carry what the upstream answered, in the order of their times. */
  ghost predicate LogInv(s: State, up: Upstream) {
    forall i :: 0 <= i < |s.log| ==>
      up(s.log[i].repliedAt, s.log[i].key) == Some(s.log[i].value) && s.log[i].repliedAt <= s.log[i].at <= s.now
  }

  /** The group and the live flights name each other. */
  ghost predicate GroupInv(s: State) {
    && (forall k :: k in s.group ==> s.group[k] in s.flights && s.flights[s.group[k]].key == k)
    && (forall f :: f in s.flights ==> s.flights[f].key in s.group && s.group[s.flights[f].key] == f)
    && (forall f :: f in s.flights ==> f < |s.started| && s.started[f] == s.flights[f].key)
  }

  /** The log had `readAt` writes at the time `at`. */
  ghost predicate ReadWhen(log: seq<Write>, at: int, readAt: nat) {
    && readAt <= |log|
    && (forall i :: 0 <= i < readAt ==> log[i].at <= at)
    && (forall i :: readAt <= i < |log| ==> at <= log[i].at)
  }

  /** A stale copy is what the caches held when it was read. */
  ghost predicate StaleRead(s: State, key: Key, at: int, readAt: nat, stale: seq<Mod>) {
    ReadWhen(s.log, at, readAt) && stale == StaleOf(Held(s.log, readAt, key), key)
  }

  /** The stale copy is what the leader, a caller of the same key, found at its check. */
  ghost predicate LedBy(s: State, key: Key, leader: nat, readAt: nat, stale: seq<Mod>) {
    && leader in s.callers && s.callers[leader].key == key && s.callers[leader].at <= s.now
    && StaleRead(s, key, s.callers[leader].at, readAt, stale)
  }

  ghost predicate FlightInv(s: State, f: Flight, up: Upstream) {
    && LedBy(s, f.key, f.leader, f.readAt, f.stale)
    && match f.phase
       case Replied(v, t) => up(t, f.key) == Some(v) && t <= s.now
       case Written(w) => w in s.log && w.key == f.key
       case _ => true
  }

  ghost predicate OutcomeInv(s: State, key: Key, o: Outcome) {
    match o
    case Fresh(w) => w in s.log && key in Aliases(w.key, w.value)
    case StaleError(mods, leader, readAt) => mods != [] && LedBy(s, key, leader, readAt, mods)
    case Error(leader, readAt) => LedBy(s, key, leader, readAt, [])
    case Canceled => true
  }

  ghost predicate CallerInv(s: State, c: Caller) {
    && c.at <= s.now
    && match c
       case Missed(key, at, readAt, stale) =>
         StaleRead(s, key, at, readAt, stale) && !Hit(Held(s.log, readAt, key), key, at)
       case Waiting(key, _, f) => f in s.flights && s.flights[f].key == key
       case Ready(key, _, o) => OutcomeInv(s, key, o)
       case Finished(key, _, o) => OutcomeInv(s, key, o)
  }

  ghost predicate FlightsInv(s: State, flights: map<nat, Flight>, up: Upstream) {
    forall f :: f in flights ==> FlightInv(s, flights[f], up)
  }

  ghost predicate CallersInv(s: State, callers: map<nat, Caller>) {
    forall c :: c in callers ==> CallerInv(s, callers[c])
  }

  ghost predicate Inv(s: State, up: Upstream) {
    && CacheInv(s) && LogInv(s, up) && GroupInv(s)
    && FlightsInv(s, s.flights, up) && CallersInv(s, s.callers)
  }

  lemma CacheHolds(s: State, k: Key)
    requires CacheInv(s)
    ensures Holds(s.cache, k) == Held(s.log, |s.log|, k)
    ensures k in s.cache ==> s.cache[k] in s.log && k in Aliases(s.cache[k].key, s.cache[k].value)
  {
    LastWriteIsLogged(s.log, |s.log|, k);
    assert (if k in s.cache then Some(s.cache[k]) else None) == LastWrite(s.log, |s.log|, k);
  }

  /** From `s` to `t` time and the log only grow, and callers keep their key and the time of their check. */
  ghost predicate Grows(s: State, t: State) {
    && s.now <= t.now && |s.log| <= |t.log|
    && (forall i :: 0 <= i < |s.log| ==> t.log[i] == s.log[i])
    && (forall i :: |s.log| <= i < |t.log| ==> s.now <= t.log[i].at)
    && (forall n: nat, k :: n <= |s.log| ==> LastWrite(t.log, n, k) == LastWrite(s.log, n, k))
    && (forall c :: c in s.callers ==> c in t.callers && SameCall(s.callers[c], t.callers[c]))
  }

  predicate SameCall(c: Caller, d: Caller) { c.key == d.key && c.at == d.at }

  lemma FlightStable(s: State, t: State, f: Flight, up: Upstream)
    requires Grows(s, t) && FlightInv(s, f, up)
    ensures FlightInv(t, f, up)
  {
  }

  lemma CallerStable(s: State, t: State, c: Caller)
    requires Grows(s, t) && CallerInv(s, c)
    requires c.Waiting? ==> c.flight in t.flights && t.flights[c.flight].key == c.key
    ensures CallerInv(t, c)
  {
  }

  lemma FlightsStable(s: State, t: State, up: Upstream)
    requires Grows(s, t) && FlightsInv(s, s.flights, up)
    ensures FlightsInv(t, s.flights, up)
  {
    forall f | f in s.flights ensures FlightInv(t, s.flights[f], up) { FlightStable(s, t, s.flights[f], up); }
  }

  /** While no flight leaves, every waiter still has its flight. */
  lemma CallersStable(s: State, t: State)
    requires Grows(s, t) && CallersInv(s, s.callers)
    requires forall f :: f in s.flights ==> f in t.flights && t.flights[f].key == s.flights[f].key
    ensures CallersInv(t, s.callers)
  {
    forall c | c in s.callers ensures CallerInv(t, s.callers[c]) { CallerStable(s, t, s.callers[c]); }
  }

  lemma FlightsUpdate(s: State, flights: map<nat, Flight>, f: nat, flight: Flight, up: Upstream)
    requires FlightsInv(s, flights, up) && FlightInv(s, flight, up)
    ensures FlightsInv(s, flights[f := flight], up)
  {
  }

  lemma CallersUpdate(s: State, t: State, c: nat, caller: Caller)
    requires Grows(s, t) && t.flights == s.flights && CallersInv(t, s.callers) && CallerInv(s, caller)
    ensures CallersInv(t, s.callers[c := caller])
  {
    CallerStable(s, t, caller);
  }

  lemma SameLogGrows(s: State, t: State)
    requires s.now <= t.now && t.log == s.log
    requires forall c :: c in s.callers ==> c in t.callers && SameCall(s.callers[c], t.callers[c])
    ensures Grows(s, t)
  {
  }

  lemma SameData(s: State, t: State, up: Upstream)
    requires CacheInv(s) && LogInv(s, up) && s.now <= t.now && t.log == s.log && t.cache == s.cache
    ensures CacheInv(t) && LogInv(t, up)
  {
  }

  /** Caches and log untouched, and no flight leaves. */
  ghost predicate Quiet(s: State, t: State) {
    && s.now <= t.now && t.log == s.log && t.cache == s.cache
    && (forall f :: f in s.flights ==> f in t.flights && t.flights[f].key == s.flights[f].key)
    && (forall c :: c in s.callers ==> c in t.callers && SameCall(s.callers[c], t.callers[c]))
  }

  lemma QuietKeeps(s: State, t: State, up: Upstream)
    requires Inv(s, up) && Quiet(s, t)
    ensures Grows(s, t)
    ensures CacheInv(t) && LogInv(t, up)
    ensures FlightsInv(t, s.flights, up) && CallersInv(t, s.callers)
  {
    SameLogGrows(s, t);
    SameData(s, t, up);
    FlightsStable(s, t, up);
    CallersStable(s, t);
  }

  lemma TickInv(s: State, step: Step, up: Upstream)
    requires Inv(s, up) && step.Tick?
    ensures Inv(Apply(s, step, up), up)
  {
    QuietKeeps(s, Apply(s, step, up), up);
  }

  /** A step that changes one caller and nothing else. */
  lemma CallerChange(s: State, c: nat, caller: Caller, up: Upstream)
    requires Inv(s, up) && CallerInv(s, caller)
    requires c in s.callers ==> SameCall(s.callers[c], caller)
    ensures Inv(s.(callers := s.callers[c := caller]), up)
  {
    var t := s.(callers := s.callers[c := caller]);
    QuietKeeps(s, t, up);
    CallersUpdate(s, t, c, caller);
    assert GroupInv(t);
  }

  lemma CheckInv(s: State, step: Step, up: Upstream)
    requires Inv(s, up) && Enabled(s, step, up) && step.Check?
    ensures Inv(Apply(s, step, up), up)
  {
    CacheHolds(s, step.key);
    CallerChange(s, step.c, Apply(s, step, up).callers[step.c], up);
  }

  lemma PhaseGroup(s: State, f: nat, flight: Flight)
    requires GroupInv(s) && f in s.flights && flight.key == s.flights[f].key
    ensures GroupInv(s.(flights := s.flights[f := flight]))
  {
  }

  /** A step that changes the phase of one flight and nothing else. */
  lemma PhaseChange(s: State, f: nat, flight: Flight, up: Upstream)
    requires Inv(s, up) && f in s.flights && flight.key == s.flights[f].key && FlightInv(s, flight, up)
    ensures Inv(s.(flights := s.flights[f := flight]), up)
  {
    var t := s.(flights := s.flights[f := flight]);
    QuietKeeps(s, t, up);
    PhaseGroup(s, f, flight);
    FlightStable(s, t, flight, up);
    FlightsUpdate(t, s.flights, f, flight, up);
  }

  lemma FetchInv(s: State, step: Step, up: Upstream)
    requires Inv(s, up) && Enabled(s, step, up) && (step.Reply? || step.Break?)
    ensures Inv(Apply(s, step, up), up)
  {
    assert FlightInv(s, s.flights[step.f], up);
    PhaseChange(s, step.f, Apply(s, step, up).flights[step.f], up);
  }

  lemma LeadGroup(s: State, key: Key, flight: Flight)
    requires GroupInv(s) && key !in s.group && flight.key == key
    ensures GroupInv(s.(group := s.group[key := |s.started|], flights := s.flights[|s.started| := flight],
                        started := s.started + [key]))
  {
  }

  /** A new flight joins the group. */
  lemma NewFlight(s: State, key: Key, flight: Flight, up: Upstream)
    requires Inv(s, up) && key !in s.group && flight.key == key && FlightInv(s, flight, up)
    ensures Inv(s.(group := s.group[key := |s.started|], flights := s.flights[|s.started| := flight],
                   started := s.started + [key]), up)
  {
    var t := s.(group := s.group[key := |s.started|], flights := s.flights[|s.started| := flight],
                started := s.started + [key]);
    QuietKeeps(s, t, up);
    LeadGroup(s, key, flight);
    FlightStable(s, t, flight, up);
    FlightsUpdate(t, s.flights, |s.started|, flight, up);
  }

  lemma JoinInv(s: State, step: Step, up: Upstream)
    requires Inv(s, up) && Enabled(s, step, up) && step.Join?
    ensures Inv(Apply(s, step, up), up)
  {
    var c, m := step.c, s.callers[step.c];
    assert CallerInv(s, m);
    if m.key in s.group {
      CallerChange(s, c, Waiting(m.key, m.at, s.group[m.key]), up);
    } else {
      var f, flight := |s.started|, Flight(m.key, m.stale, c, m.readAt, Fetching);
      NewFlight(s, m.key, flight, up);
      var t := s.(group := s.group[m.key := f], flights := s.flights[f := flight], started := s.started + [m.key]);
      CallerChange(t, c, Waiting(m.key, m.at, f), up);
    }
  }

  /** The state after the write of `w`, the flight's own phase aside. */
  function AfterWrite(s: State, w: Write): State { s.(cache := Store(s.cache, w), log := s.log + [w]) }

  lemma WriteGrows(s: State, w: Write)
    requires s.now <= w.at
    ensures Grows(s, AfterWrite(s, w))
  {
    forall n: nat, k | n <= |s.log| ensures LastWrite(s.log + [w], n, k) == LastWrite(s.log, n, k) {
      LastWriteAppend(s.log, w, n, k);
    }
  }

  lemma WriteCacheInv(s: State, w: Write)
    requires CacheInv(s)
    ensures CacheInv(AfterWrite(s, w))
  {
    var t := AfterWrite(s, w);
    forall k ensures (if k in t.cache then Some(t.cache[k]) else None) == LastWrite(t.log, |t.log|, k) {
      LastWriteAppend(s.log, w, |s.log|, k);
      assert (if k in s.cache then Some(s.cache[k]) else None) == LastWrite(s.log, |s.log|, k);
    }
  }

  lemma LogChange(s: State, w: Write, up: Upstream)
    requires Inv(s, up) && up(w.repliedAt, w.key) == Some(w.value) && w.repliedAt <= w.at == s.now
    ensures Inv(AfterWrite(s, w), up)
  {
    var t := AfterWrite(s, w);
    WriteGrows(s, w);
    WriteCacheInv(s, w);
    FlightsStable(s, t, up);
    CallersStable(s, t);
  }

  lemma WriteInv(s: State, step: Step, up: Upstream)
    requires Inv(s, up) && Enabled(s, step, up) && step.WriteCache?
    ensures Inv(Apply(s, step, up), up)
  {
    var f, flight := step.f, s.flights[step.f];
    assert FlightInv(s, flight, up);
    var w := Write(flight.key, flight.phase.value, flight.phase.repliedAt, s.now);
    var t := AfterWrite(s, w);
    LogChange(s, w, up);
    assert FlightInv(t, flight, up);
    assert w == t.log[|s.log|];
    PhaseChange(t, f, flight.(phase := Written(w)), up);
  }

  lemma CompleteGroup(s: State, f: nat)
    requires GroupInv(s) && f in s.flights
    ensures GroupInv(s.(flights := s.flights - {f}, group := s.group - {s.flights[f].key}))
  {
  }

  /** What a caller becomes at a delivery. */
  lemma DeliveredInv(s: State, f: nat, c: Caller, up: Upstream)
    requires f in s.flights && FlightInv(s, s.flights[f], up) && CallerInv(s, c)
    requires s.flights[f].phase.Written? || s.flights[f].phase.Broken?
    ensures c.Waiting? && c.flight == f ==> CallerInv(s, Ready(c.key, c.at, Delivered(s.flights[f])))
  {
  }

  lemma DeliverGrows(s: State, step: Step, up: Upstream)
    requires Enabled(s, step, up) && step.Complete?
    ensures Grows(s, Apply(s, step, up))
  {
  }

  lemma DeliverCallers(s: State, step: Step, t: State, up: Upstream)
    requires FlightsInv(s, s.flights, up) && CallersInv(s, s.callers)
    requires Enabled(s, step, up) && step.Complete? && t == Apply(s, step, up) && Grows(s, t)
    ensures CallersInv(t, t.callers)
  {
    forall c | c in t.callers ensures CallerInv(t, t.callers[c]) {
      DeliveredInv(s, step.f, s.callers[c], up);
      CallerStable(s, t, t.callers[c]);
    }
  }

  lemma CompleteInv(s: State, step: Step, up: Upstream)
    requires Inv(s, up) && Enabled(s, step, up) && step.Complete?
    ensures Inv(Apply(s, step, up), up)
  {
    var t := Apply(s, step, up);
    DeliverGrows(s, step, up);
    SameData(s, t, up);
    CompleteGroup(s, step.f);
    FlightsStable(s, t, up);
    assert FlightsInv(t, t.flights, up);
    DeliverCallers(s, step, t, up);
  }

  lemma ReleaseInv(s: State, step: Step, up: Upstream)
    requires Inv(s, up) && Enabled(s, step, up) && (step.Receive? || step.Leave?)
    ensures Inv(Apply(s, step, up), up)
  {
    assert CallerInv(s, s.callers[step.c]);
    CallerChange(s, step.c, Apply(s, step, up).callers[step.c], up);
  }

  lemma StepInv(s: State, step: Step, up: Upstream)
    requires Inv(s, up) && Enabled(s, step, up)
    ensures Inv(Apply(s, step, up), up)
  {
    if step.Reply? || step.Break? {
      FetchInv(s, step, up);
    } else if step.Receive? || step.Leave? {
      ReleaseInv(s, step, up);
    } else {
      match step
      case Tick(_) => TickInv(s, step, up);
      case Check(_, _) => CheckInv(s, step, up);
      case Join(_) => JoinInv(s, step, up);
      case WriteCache(_) => WriteInv(s, step, up);
      case Complete(_) => CompleteInv(s, step, up);
    }
  }

  // ----- runs -----

  ghost predicate Legal(s: State, steps: seq<Step>, up: Upstream)
    decreases |steps|
  {
    steps == [] || (Enabled(s, steps[0], up) && Legal(Apply(s, steps[0], up), steps[1..], up))
  }

  ghost function Exec(s: State, steps: seq<Step>, up: Upstream): State
    requires Legal(s, steps, up)
    decreases |steps|
  {
    if steps == [] then s else Exec(Apply(s, steps[0], up), steps[1..], up)
  }

  lemma {:induction false} RunInv(s: State, steps: seq<Step>, up: Upstream)
    requires Inv(s, up) && Legal(s, steps, up)
    ensures Inv(Exec(s, steps, up), up)
    decreases |steps|
  {
    if steps != [] {
      StepInv(s, steps[0], up);
      RunInv(Apply(s, steps[0], up), steps[1..], up);
    }
  }

  /** In every reachable state the invariant holds. */
  lemma Reachable(now: int, steps: seq<Step>, up: Upstream)
    requires Legal(Init(now), steps, up)
    ensures Inv(Exec(Init(now), steps, up), up)
  {
    RunInv(Init(now), steps, up);
  }

  // ----- what the protocol promises -----

  predicate SameWait(c: Caller, d: Caller) { c.Waiting? && d.Waiting? && c.key == d.key }

  /** At most one request per key is in progress, and all waiters of a key wait for it. */
  lemma OneFlightPerKey(s: State, up: Upstream)
    requires Inv(s, up)
    ensures forall f, g :: f in s.flights && g in s.flights && s.flights[f].key == s.flights[g].key ==> f == g
    ensures forall c, d :: c in s.callers && d in s.callers && SameWait(s.callers[c], s.callers[d]) ==>
              s.callers[c].flight == s.callers[d].flight
  {
  }

  /** The caches change only by a successful fetch: they hold the last one that stored under the key. */
  lemma CacheIsLastFetch(s: State, up: Upstream, k: Key)
    requires Inv(s, up)
    ensures Holds(s.cache, k) == Held(s.log, |s.log|, k)
    ensures LastWrite(s.log, |s.log|, k).Some? ==>
              var w := LastWrite(s.log, |s.log|, k).value;
              up(w.repliedAt, w.key) == Some(w.value) && k in Aliases(w.key, w.value)
  {
    CacheHolds(s, k);
    LastWriteIsLogged(s.log, |s.log|, k);
  }

  /** A stale result is the non-empty list that the caches held when the flight's leader checked them. */
  lemma StaleResultWasHeld(s: State, up: Upstream, c: nat)
    requires Inv(s, up) && c in s.callers && s.callers[c].Finished? && s.callers[c].outcome.StaleError?
    ensures var key, o := s.callers[c].key, s.callers[c].outcome;
            && o.mods != [] && !key.ModKey?
            && o.leader in s.callers && s.callers[o.leader].key == key
            && ReadWhen(s.log, s.callers[o.leader].at, o.readAt)
            && Held(s.log, o.readAt, key).Some? && Held(s.log, o.readAt, key).value.value == Listing(o.mods)
  {
  }

  /** A failed fetch is a plain error only when its leader's check had found nothing to fall back on. */
  lemma PlainErrorHadNoReserve(s: State, up: Upstream, c: nat)
    requires Inv(s, up) && c in s.callers && s.callers[c].Finished? && s.callers[c].outcome.Error?
    ensures var key, o := s.callers[c].key, s.callers[c].outcome;
            && o.leader in s.callers && s.callers[o.leader].key == key
            && ReadWhen(s.log, s.callers[o.leader].at, o.readAt)
            && (!key.ModKey? && Held(s.log, o.readAt, key).Some? ==>
                  var found := Held(s.log, o.readAt, key).value.value;
                  found.Single? || found == Listing([]))
  {
  }

  /** A step of the caller itself towards its result, or of the flight it waits for. */
  predicate Advances(s: State, c: nat, step: Step)
    requires c in s.callers
  {
    match step
    case Join(d) => d == c
    case Receive(d) => d == c
    case Tick(_) => false
    case Check(_, _) => false
    case Leave(_) => false
    case _ => s.callers[c].Waiting? && step.f == s.callers[c].flight
  }

  /** A caller is never stuck: it or the flight it waits for can move until it has its result. */
  lemma NoCallerStuck(s: State, up: Upstream, c: nat)
    requires Inv(s, up) && c in s.callers && !s.callers[c].Finished?
    ensures exists step :: Advances(s, c, step) && Enabled(s, step, up)
  {
    assert CallerInv(s, s.callers[c]);
    match s.callers[c]
    case Missed(_, _, _, _) => assert Advances(s, c, Join(c)) && Enabled(s, Join(c), up);
    case Ready(_, _, _) => assert Advances(s, c, Receive(c)) && Enabled(s, Receive(c), up);
    case Waiting(_, _, f) =>
      var step :=
        match s.flights[f].phase
        case Fetching => Break(f)
        case Replied(_, _) => WriteCache(f)
        case _ => Complete(f);
      assert Advances(s, c, step) && Enabled(s, step, up);
  }
}
