/** What the results of whole runs are worth: how old they are, and that they are upstream answers. */
module FlightRuns {
  import opened Flights
  import opened ModdbModels
  import opened Options
  import opened SharedCache

  // ----- late joins -----

  /** The data of a write is past the limit of `key` for a caller that checked the caches at `at`. */
  predicate Expired(key: Key, at: int, w: Write) { at - w.at >= TTL(key) }

  /** The flight waits to deliver data that has expired for the caller. */
  predicate HoldsExpired(f: Flight, c: Caller) { f.phase.Written? && Expired(c.key, c.at, f.phase.write) }

  /** A caller joins a flight whose data, written but not delivered, has expired for it. */
  predicate LateJoin(s: State, step: Step) {
    && step.Join? && step.c in s.callers && s.callers[step.c].Missed?
    && var m := s.callers[step.c];
       m.key in s.group && s.group[m.key] in s.flights && HoldsExpired(s.flights[s.group[m.key]], m)
  }

  function JoinsLate(s: State, step: Step): set<nat> { if LateJoin(s, step) then {step.c} else {} }

  /** The callers that join late in a run. */
  ghost function LateJoiners(s: State, steps: seq<Step>, up: Upstream): set<nat>
    requires Legal(s, steps, up)
    decreases |steps|
  {
    if steps == [] then {} else JoinsLate(s, steps[0]) + LateJoiners(Apply(s, steps[0], up), steps[1..], up)
  }

  ghost predicate LateCaller(flights: map<nat, Flight>, c: Caller, late: bool) {
    match c
    case Missed(_, _, _, _) => !late
    case Waiting(_, _, f) => f in flights && (late <==> HoldsExpired(flights[f], c))
    case Ready(key, at, o) => o.Fresh? ==> (late <==> Expired(key, at, o.write))
    case Finished(key, at, o) => o.Fresh? ==> (late <==> Expired(key, at, o.write))
  }

  /** Of the callers that got or are to get data, `late` are those whose data has expired. */
  ghost predicate LateInv(s: State, late: set<nat>) {
    && (forall c :: c in late ==> c in s.callers)
    && (forall c :: c in s.callers ==> LateCaller(s.flights, s.callers[c], c in late))
  }

  lemma JoinLate(s: State, step: Step, up: Upstream, late: set<nat>)
    requires GroupInv(s) && Enabled(s, step, up) && LateInv(s, late) && step.Join?
    ensures LateInv(Apply(s, step, up), late + JoinsLate(s, step))
  {
  }

  /** A write comes after the checks of all that wait for it. */
  lemma FlightStepLate(s: State, step: Step, up: Upstream, late: set<nat>)
    requires CallersInv(s, s.callers) && Enabled(s, step, up) && LateInv(s, late)
    requires step.Reply? || step.Break? || step.WriteCache?
    ensures LateInv(Apply(s, step, up), late)
  {
  }

  lemma CompleteLate(s: State, step: Step, up: Upstream, late: set<nat>)
    requires Enabled(s, step, up) && LateInv(s, late) && step.Complete?
    ensures LateInv(Apply(s, step, up), late)
  {
  }

  lemma CallerStepLate(s: State, step: Step, up: Upstream, late: set<nat>)
    requires Enabled(s, step, up) && LateInv(s, late)
    requires step.Tick? || step.Check? || step.Receive? || step.Leave?
    ensures LateInv(Apply(s, step, up), late)
  {
  }

  lemma StepLate(s: State, step: Step, up: Upstream, late: set<nat>)
    requires Inv(s, up) && Enabled(s, step, up) && LateInv(s, late)
    ensures LateInv(Apply(s, step, up), late + JoinsLate(s, step))
  {
    if step.Join? {
      JoinLate(s, step, up, late);
    } else {
      assert late + JoinsLate(s, step) == late;
      if step.Complete? {
        CompleteLate(s, step, up, late);
      } else if step.Reply? || step.Break? || step.WriteCache? {
        FlightStepLate(s, step, up, late);
      } else {
        CallerStepLate(s, step, up, late);
      }
    }
  }

  lemma {:induction false} RunLate(s: State, steps: seq<Step>, up: Upstream, late: set<nat>)
    requires Inv(s, up) && LateInv(s, late) && Legal(s, steps, up)
    ensures LateInv(Exec(s, steps, up), late + LateJoiners(s, steps, up))
    decreases |steps|
  {
    if steps == [] {
      assert late + LateJoiners(s, steps, up) == late;
    } else {
      StepInv(s, steps[0], up);
      StepLate(s, steps[0], up, late);
      var t, joined := Apply(s, steps[0], up), late + JoinsLate(s, steps[0]);
      RunLate(t, steps[1..], up, joined);
      assert late + LateJoiners(s, steps, up) == joined + LateJoiners(t, steps[1..], up);
    }
  }

  predicate GotData(s: State, c: nat) {
    c in s.callers && s.callers[c].Finished? && s.callers[c].outcome.Fresh?
  }

  /** Whatever the delays, a successful result is past its limit exactly for the callers that joined late. */
  lemma ExpiredIffLateJoin(now: int, steps: seq<Step>, up: Upstream, c: nat)
    requires Legal(Init(now), steps, up) && GotData(Exec(Init(now), steps, up), c)
    ensures var caller := Exec(Init(now), steps, up).callers[c];
            Expired(caller.key, caller.at, caller.outcome.write) <==> c in LateJoiners(Init(now), steps, up)
  {
    RunLate(Init(now), steps, up, {});
    var s := Exec(Init(now), steps, up);
    assert LateCaller(s.flights, s.callers[c], c in {} + LateJoiners(Init(now), steps, up));
  }

  // ----- delivery in time -----

  /** No flight that has written is past the limit of its own key. */
  ghost predicate InTime(s: State) {
    forall f :: f in s.flights && s.flights[f].phase.Written? ==>
      s.now - s.flights[f].phase.write.at < TTL(s.flights[f].key)
  }

  ghost predicate InTimeRun(s: State, steps: seq<Step>, up: Upstream)
    requires Legal(s, steps, up)
    decreases |steps|
  {
    InTime(s) && (steps != [] ==> InTimeRun(Apply(s, steps[0], up), steps[1..], up))
  }

  lemma InTimeStep(s: State, step: Step, up: Upstream)
    requires Inv(s, up) && InTime(s)
    ensures !LateJoin(s, step)
  {
  }

  lemma {:induction false} InTimeRunHasNoLateJoin(s: State, steps: seq<Step>, up: Upstream)
    requires Inv(s, up) && Legal(s, steps, up) && InTimeRun(s, steps, up)
    ensures LateJoiners(s, steps, up) == {}
    decreases |steps|
  {
    if steps != [] {
      InTimeStep(s, steps[0], up);
      StepInv(s, steps[0], up);
      InTimeRunHasNoLateJoin(Apply(s, steps[0], up), steps[1..], up);
    }
  }

  /**
   When every flight delivers within the limit of its key after its write, no result is past its
   limit, and with writes less than `d` after their replies none was given TTL + d before the check.
   */
  lemma InTimeIsFresh(now: int, steps: seq<Step>, up: Upstream, d: int, c: nat)
    requires Legal(Init(now), steps, up) && InTimeRun(Init(now), steps, up) && GotData(Exec(Init(now), steps, up), c)
    ensures var s := Exec(Init(now), steps, up);
            var key, at, w := s.callers[c].key, s.callers[c].at, s.callers[c].outcome.write;
            && at - w.at < TTL(key)
            && ((forall i :: 0 <= i < |s.log| ==> s.log[i].at - s.log[i].repliedAt < d) ==>
                  at - w.repliedAt < TTL(key) + d)
  {
    InTimeRunHasNoLateJoin(Init(now), steps, up);
    ExpiredIffLateJoin(now, steps, up, c);
    Reachable(now, steps, up);
    var s := Exec(Init(now), steps, up);
    assert CallerInv(s, s.callers[c]);
  }

  // ----- the uncached reading -----

  /**
   What the upstream answers for a key it also answers for that answer's numeric ID and slug, and
   details answer exactly the requests for details.
   */
  ghost predicate Coherent(up: Upstream) {
    forall t, k :: up(t, k).Some? ==>
      (k.ModKey? <==> up(t, k).value.Single?) &&
      forall a :: a in Aliases(k, up(t, k).value) ==> up(t, a) == up(t, k)
  }

  /** Whatever the delays, a successful result is what a direct request of the same key gave. */
  lemma ResultsAreAnswers(now: int, steps: seq<Step>, up: Upstream, c: nat)
    requires Legal(Init(now), steps, up) && GotData(Exec(Init(now), steps, up), c)
    ensures var s := Exec(Init(now), steps, up);
            var key, w := s.callers[c].key, s.callers[c].outcome.write;
            && w in s.log && now <= w.repliedAt <= w.at <= s.now
            && up(w.repliedAt, w.key) == Some(w.value) && key in Aliases(w.key, w.value)
            && (Coherent(up) ==> up(w.repliedAt, key) == Some(w.value) && (key.ModKey? <==> w.value.Single?))
  {
    Reachable(now, steps, up);
    RunBegins(Init(now), steps, up, now);
    var s := Exec(Init(now), steps, up);
    assert CallerInv(s, s.callers[c]);
    var w := s.callers[c].outcome.write;
    var i :| 0 <= i < |s.log| && s.log[i] == w;
    assert up(w.repliedAt, w.key) == Some(w.value);
  }

  /** Nothing was answered before the run began. */
  ghost predicate Begun(s: State, start: int) {
    && start <= s.now
    && (forall i :: 0 <= i < |s.log| ==> start <= s.log[i].repliedAt)
    && (forall f :: f in s.flights && s.flights[f].phase.Replied? ==> start <= s.flights[f].phase.repliedAt)
  }

  lemma StepBegins(s: State, step: Step, up: Upstream, start: int)
    requires Begun(s, start) && Enabled(s, step, up)
    ensures Begun(Apply(s, step, up), start)
  {
  }

  lemma {:induction false} RunBegins(s: State, steps: seq<Step>, up: Upstream, start: int)
    requires Begun(s, start) && Legal(s, steps, up)
    ensures Begun(Exec(s, steps, up), start)
    decreases |steps|
  {
    if steps != [] {
      StepBegins(s, steps[0], up, start);
      RunBegins(Apply(s, steps[0], up), steps[1..], up, start);
    }
  }
}
