/** What whole runs make of a call: which calls get data, a reserve copy, an error or a cancellation. */
module FlightOutcomes {
  import opened FlightRequests
  import opened Flights
  import opened ModdbModels
  import opened Options
  import opened SharedCache

  // ----- the flights that callers join -----

  /** After the step `joined` also says which flight its caller joined. */
  function JoinedAfter(s: State, step: Step, up: Upstream, joined: map<nat, nat>): map<nat, nat>
    requires Enabled(s, step, up)
  {
    match step
    case Join(c) =>
      joined[c := if s.callers[c].key in s.group then s.group[s.callers[c].key] else |s.started|]
    case _ => joined
  }

  /** The flights that callers join in a run, with those of `joined` before. */
  ghost function Joined(s: State, steps: seq<Step>, up: Upstream, joined: map<nat, nat>): map<nat, nat>
    requires Legal(s, steps, up)
    decreases |steps|
  {
    if steps == [] then joined
    else Joined(Apply(s, steps[0], up), steps[1..], up, JoinedAfter(s, steps[0], up, joined))
  }

  // ----- causes -----

  /** The caller's flight, if it joined one, has left the group, and data came exactly if it did not break. */
  ghost predicate Caused(s: State, past: seq<Step>, joined: map<nat, nat>, c: nat, o: Outcome) {
    && !o.Canceled? && (c in joined ==> joined[c] !in s.flights)
    && (o.Fresh? <==> c !in joined || Break(joined[c]) !in past)
  }

  ghost predicate CauseOf(s: State, past: seq<Step>, joined: map<nat, nat>, c: nat, caller: Caller) {
    match caller
    case Missed(_, _, _, _) => c !in joined && Leave(c) !in past
    case Waiting(_, _, f) => c in joined && joined[c] == f && Leave(c) !in past
    case Ready(_, _, o) => Leave(c) !in past && Caused(s, past, joined, c, o)
    case Finished(_, _, o) => if Leave(c) in past then o.Canceled? else Caused(s, past, joined, c, o)
  }

  /** The state after the steps of `past`, in which the callers joined the flights of `joined`. */
  ghost predicate CauseInv(s: State, past: seq<Step>, joined: map<nat, nat>) {
    && (forall c :: c in joined ==> c in s.callers && joined[c] < |s.started|)
    && (forall c :: Leave(c) in past ==> c in s.callers)
    && (forall f: nat :: Break(f) in past ==> f < |s.started|)
    && (forall f :: f in s.flights ==> (Break(f) in past <==> s.flights[f].phase.Broken?))
    && (forall c :: c in s.callers ==> CauseOf(s, past, joined, c, s.callers[c]))
  }

  /** Steps of the past and one more. */
  lemma Recorded(past: seq<Step>, step: Step)
    ensures forall x :: x in past + [step] <==> x in past || x == step
  {
  }

  lemma CallerStepCause(s: State, step: Step, up: Upstream, past: seq<Step>, joined: map<nat, nat>)
    requires Enabled(s, step, up) && CauseInv(s, past, joined)
    requires step.Tick? || step.Check? || step.Receive? || step.Leave?
    ensures CauseInv(Apply(s, step, up), past + [step], joined)
  {
    Recorded(past, step);
    var t := Apply(s, step, up);
    forall c | c in t.callers ensures CauseOf(t, past + [step], joined, c, t.callers[c]) {
      if c in s.callers { assert CauseOf(s, past, joined, c, s.callers[c]); }
    }
  }

  lemma JoinCauseOf(s: State, step: Step, up: Upstream, past: seq<Step>, joined: map<nat, nat>, c: nat)
    requires GroupInv(s) && Enabled(s, step, up) && step.Join? && c in s.callers
    requires (c in joined ==> joined[c] < |s.started|) && CauseOf(s, past, joined, c, s.callers[c])
    ensures var t := Apply(s, step, up);
            CauseOf(t, past + [step], JoinedAfter(s, step, up, joined), c, t.callers[c])
  {
    Recorded(past, step);
  }

  lemma JoinCause(s: State, step: Step, up: Upstream, past: seq<Step>, joined: map<nat, nat>)
    requires GroupInv(s) && Enabled(s, step, up) && CauseInv(s, past, joined) && step.Join?
    ensures CauseInv(Apply(s, step, up), past + [step], JoinedAfter(s, step, up, joined))
  {
    Recorded(past, step);
    var t, after := Apply(s, step, up), JoinedAfter(s, step, up, joined);
    forall c | c in t.callers ensures CauseOf(t, past + [step], after, c, t.callers[c]) {
      JoinCauseOf(s, step, up, past, joined, c);
    }
  }

  lemma FlightStepCause(s: State, step: Step, up: Upstream, past: seq<Step>, joined: map<nat, nat>)
    requires GroupInv(s) && Enabled(s, step, up) && CauseInv(s, past, joined)
    requires step.Reply? || step.Break? || step.WriteCache?
    ensures CauseInv(Apply(s, step, up), past + [step], joined)
  {
    Recorded(past, step);
    var t := Apply(s, step, up);
    forall c | c in t.callers ensures CauseOf(t, past + [step], joined, c, t.callers[c]) {
      assert CauseOf(s, past, joined, c, s.callers[c]);
    }
  }

  lemma CompleteCause(s: State, step: Step, up: Upstream, past: seq<Step>, joined: map<nat, nat>)
    requires CallersInv(s, s.callers) && Enabled(s, step, up) && CauseInv(s, past, joined) && step.Complete?
    ensures CauseInv(Apply(s, step, up), past + [step], joined)
  {
    Recorded(past, step);
    var t := Apply(s, step, up);
    forall c | c in t.callers ensures CauseOf(t, past + [step], joined, c, t.callers[c]) {
      assert CallerInv(s, s.callers[c]) && CauseOf(s, past, joined, c, s.callers[c]);
    }
  }

  lemma StepCause(s: State, step: Step, up: Upstream, past: seq<Step>, joined: map<nat, nat>)
    requires Inv(s, up) && Enabled(s, step, up) && CauseInv(s, past, joined)
    ensures CauseInv(Apply(s, step, up), past + [step], JoinedAfter(s, step, up, joined))
  {
    if step.Join? {
      JoinCause(s, step, up, past, joined);
    } else if step.Complete? {
      CompleteCause(s, step, up, past, joined);
    } else if step.Reply? || step.Break? || step.WriteCache? {
      FlightStepCause(s, step, up, past, joined);
    } else {
      CallerStepCause(s, step, up, past, joined);
    }
  }

  lemma {:induction false} RunCause(s: State, steps: seq<Step>, up: Upstream, past: seq<Step>, joined: map<nat, nat>)
    requires Inv(s, up) && Legal(s, steps, up) && CauseInv(s, past, joined)
    ensures CauseInv(Exec(s, steps, up), past + steps, Joined(s, steps, up, joined))
    decreases |steps|
  {
    if steps == [] {
      assert past + steps == past;
    } else {
      StepInv(s, steps[0], up);
      StepCause(s, steps[0], up, past, joined);
      RunCause(Apply(s, steps[0], up), steps[1..], up, past + [steps[0]], JoinedAfter(s, steps[0], up, joined));
      assert (past + [steps[0]]) + steps[1..] == past + steps;
    }
  }

  predicate Got(s: State, c: nat) { c in s.callers && s.callers[c].Finished? }

  /**
   A finished caller is canceled exactly when it left. Any other has data exactly when it needed no
   flight or the flight it joined did not break.
   */
  lemma OutcomeByCause(now: int, steps: seq<Step>, up: Upstream, c: nat)
    requires Legal(Init(now), steps, up) && Got(Exec(Init(now), steps, up), c)
    ensures var o, joined := Exec(Init(now), steps, up).callers[c].outcome, Joined(Init(now), steps, up, map[]);
            && (o.Canceled? <==> Leave(c) in steps)
            && (Leave(c) !in steps ==> (o.Fresh? <==> c !in joined || Break(joined[c]) !in steps))
  {
    RunCause(Init(now), steps, up, [], map[]);
    assert [] + steps == steps;
    var s := Exec(Init(now), steps, up);
    assert CauseOf(s, steps, Joined(Init(now), steps, up, map[]), c, s.callers[c]);
  }

  /** The non-empty list that the caches held under the key at the read position of the flight's leader. */
  ghost predicate Reserve(s: State, key: Key, readAt: nat, mods: seq<Mod>) {
    && mods != [] && !key.ModKey? && readAt <= |s.log|
    && Held(s.log, readAt, key).Some? && Held(s.log, readAt, key).value.value == Listing(mods)
  }

  /** A caller whose flight broke gets the list that the flight's leader had found, or a bare error if none. */
  lemma BrokenFlightGivesReserve(now: int, steps: seq<Step>, up: Upstream, c: nat)
    requires Legal(Init(now), steps, up) && Got(Exec(Init(now), steps, up), c) && Leave(c) !in steps
    requires c in Joined(Init(now), steps, up, map[]) && Break(Joined(Init(now), steps, up, map[])[c]) in steps
    ensures var s := Exec(Init(now), steps, up);
            var key, o := s.callers[c].key, s.callers[c].outcome;
            && (o.StaleError? || o.Error?)
            && o.leader in s.callers && s.callers[o.leader].key == key
            && ReadWhen(s.log, s.callers[o.leader].at, o.readAt)
            && (forall mods :: Reserve(s, key, o.readAt, mods) ==> o == StaleError(mods, o.leader, o.readAt))
            && (o.StaleError? ==> Reserve(s, key, o.readAt, o.mods))
  {
    OutcomeByCause(now, steps, up, c);
    Reachable(now, steps, up);
    var s := Exec(Init(now), steps, up);
    if s.callers[c].outcome.StaleError? {
      StaleResultWasHeld(s, up, c);
    } else {
      PlainErrorHadNoReserve(s, up, c);
    }
  }

  // ----- runs without failure -----

  /** What is known of the keys of flights: callers wait for their own key, and no flight of `k` broke. */
  ghost predicate KeysInv(s: State, past: seq<Step>, joined: map<nat, nat>, k: Key) {
    && (forall c :: c in joined ==>
          c in s.callers && joined[c] < |s.started| && s.started[joined[c]] == s.callers[c].key)
    && (forall f: nat :: Break(f) in past ==> f < |s.started| && s.started[f] != k)
    && (forall c :: c in s.callers && s.callers[c].Waiting? ==> c in joined)
  }

  lemma StepKeys(s: State, step: Step, up: Upstream, past: seq<Step>, joined: map<nat, nat>, k: Key)
    requires GroupInv(s) && Enabled(s, step, up) && KeysInv(s, past, joined, k)
    requires !(step.Break? && s.flights[step.f].key == k)
    ensures KeysInv(Apply(s, step, up), past + [step], JoinedAfter(s, step, up, joined), k)
  {
    Recorded(past, step);
    if step.Join? {
      JoinKeys(s, step, up, past, joined, k);
    }
  }

  lemma JoinKeys(s: State, step: Step, up: Upstream, past: seq<Step>, joined: map<nat, nat>, k: Key)
    requires GroupInv(s) && Enabled(s, step, up) && KeysInv(s, past, joined, k) && step.Join?
    ensures KeysInv(Apply(s, step, up), past + [step], JoinedAfter(s, step, up, joined), k)
  {
    Recorded(past, step);
  }

  lemma {:induction false} RunKeys(s: State, steps: seq<Step>, up: Upstream,
                                   past: seq<Step>, joined: map<nat, nat>, k: Key)
    requires Inv(s, up) && Legal(s, steps, up) && NoFailure(s, steps, up, k) && KeysInv(s, past, joined, k)
    ensures KeysInv(Exec(s, steps, up), past + steps, Joined(s, steps, up, joined), k)
    decreases |steps|
  {
    if steps == [] {
      assert past + steps == past;
    } else {
      StepInv(s, steps[0], up);
      StepKeys(s, steps[0], up, past, joined, k);
      RunKeys(Apply(s, steps[0], up), steps[1..], up, past + [steps[0]], JoinedAfter(s, steps[0], up, joined), k);
      assert (past + [steps[0]]) + steps[1..] == past + steps;
    }
  }

  /** While no fetch of its key fails, every call that is not left gets data. */
  lemma DataWithoutFailure(now: int, steps: seq<Step>, up: Upstream, c: nat)
    requires Legal(Init(now), steps, up) && Got(Exec(Init(now), steps, up), c) && Leave(c) !in steps
    requires NoFailure(Init(now), steps, up, Exec(Init(now), steps, up).callers[c].key)
    ensures Exec(Init(now), steps, up).callers[c].outcome.Fresh?
  {
    var s := Exec(Init(now), steps, up);
    OutcomeByCause(now, steps, up, c);
    RunKeys(Init(now), steps, up, [], map[], s.callers[c].key);
    assert [] + steps == steps;
  }

  // ----- leaving -----

  /** A waiting caller can leave at any time, alone: its flight, the caches and all other callers go on. */
  lemma LeavingIsAlone(s: State, up: Upstream, c: nat)
    requires c in s.callers && s.callers[c].Waiting?
    ensures Enabled(s, Leave(c), up)
    ensures var t := Apply(s, Leave(c), up);
            && t == s.(callers := t.callers) && t.callers.Keys == s.callers.Keys
            && (forall d :: d in s.callers && d != c ==> t.callers[d] == s.callers[d])
            && t.callers[c] == Finished(s.callers[c].key, s.callers[c].at, Canceled)
  {
  }

  // ----- details are found under every name -----

  /** Details just written answer calls by the requested id, the numeric ID and the slug for thirty minutes. */
  lemma DetailsByAnyName(s: State, up: Upstream, d: ModDetails, name: string, c: nat)
    requires Inv(s, up) && s.log != [] && c !in s.callers
    requires var w := s.log[|s.log| - 1];
             && w.key.ModKey? && w.value == Single(d) && s.now - w.at < 30 * 60_000_000_000
             && (name == w.key.id || name == d.mod.id || (name == d.mod.slug && name != ""))
    ensures Apply(s, Check(c, ModKey(name)), up).callers[c] ==
            Finished(ModKey(name), s.now, Fresh(s.log[|s.log| - 1]))
  {
    CacheHolds(s, ModKey(name));
    var k := ModKey(name);
    assert (if k in s.cache then Some(s.cache[k]) else None) == LastWrite(s.log, |s.log|, k);
  }
}
