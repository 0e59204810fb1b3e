/** Calls end: how many steps the protocol can take, and where it has to stop. */
module FlightWork {
  import opened Flights
  import opened ModdbModels
  import opened Options
  import opened SharedCache

  // ----- counting entries of a map -----

  function Those<T>(m: map<nat, T>, p: T -> bool): set<nat> { set c | c in m && p(m[c]) }

  lemma ThoseUpdate<T>(m: map<nat, T>, c: nat, x: T, p: T -> bool)
    ensures |Those(m[c := x], p)| ==
            |Those(m, p)| - (if c in m && p(m[c]) then 1 else 0) + (if p(x) then 1 else 0)
  {
    var rest := Those(m, p) - {c};
    assert Those(m[c := x], p) == rest + if p(x) then {c} else {};
  }

  lemma ThoseRemove<T>(m: map<nat, T>, c: nat, p: T -> bool)
    requires c in m
    ensures |Those(m - {c}, p)| == |Those(m, p)| - if p(m[c]) then 1 else 0
  {
    assert Those(m - {c}, p) == Those(m, p) - {c};
  }

  // ----- the work left -----

  predicate IsMissed(c: Caller) { c.Missed? }
  predicate IsWaiting(c: Caller) { c.Waiting? }
  predicate IsReady(c: Caller) { c.Ready? }
  predicate IsFetching(f: Flight) { f.phase.Fetching? }
  predicate IsReplied(f: Flight) { f.phase.Replied? }
  predicate IsLanded(f: Flight) { f.phase.Written? || f.phase.Broken? }

  function CallerWork(m: map<nat, Caller>): nat {
    6 * |Those(m, IsMissed)| + 2 * |Those(m, IsWaiting)| + |Those(m, IsReady)|
  }

  function FlightsWork(m: map<nat, Flight>): nat {
    3 * |Those(m, IsFetching)| + 2 * |Those(m, IsReplied)| + |Those(m, IsLanded)|
  }

  function Work(s: State): nat { CallerWork(s.callers) + FlightsWork(s.flights) }

  function WorkOf(c: Caller): nat {
    match c
    case Missed(_, _, _, _) => 6
    case Waiting(_, _, _) => 2
    case Ready(_, _, _) => 1
    case Finished(_, _, _) => 0
  }

  function FlightWorkOf(f: Flight): nat {
    match f.phase
    case Fetching => 3
    case Replied(_, _) => 2
    case _ => 1
  }

  lemma CallerUpdate(m: map<nat, Caller>, c: nat, x: Caller)
    ensures CallerWork(m[c := x]) == CallerWork(m) - (if c in m then WorkOf(m[c]) else 0) + WorkOf(x)
  {
    ThoseUpdate(m, c, x, IsMissed);
    ThoseUpdate(m, c, x, IsWaiting);
    ThoseUpdate(m, c, x, IsReady);
  }

  lemma FlightUpdate(m: map<nat, Flight>, f: nat, x: Flight)
    ensures FlightsWork(m[f := x]) == FlightsWork(m) - (if f in m then FlightWorkOf(m[f]) else 0) + FlightWorkOf(x)
  {
    ThoseUpdate(m, f, x, IsFetching);
    ThoseUpdate(m, f, x, IsReplied);
    ThoseUpdate(m, f, x, IsLanded);
  }

  lemma FlightRemove(m: map<nat, Flight>, f: nat)
    requires f in m
    ensures FlightsWork(m - {f}) == FlightsWork(m) - FlightWorkOf(m[f])
  {
    ThoseRemove(m, f, IsFetching);
    ThoseRemove(m, f, IsReplied);
    ThoseRemove(m, f, IsLanded);
  }

  /** A delivery turns waiting callers into ready ones. */
  lemma DeliverWork(m: map<nat, Caller>, f: nat, o: Outcome)
    ensures CallerWork(Deliver(m, f, o)) <= CallerWork(m)
  {
    var after := Deliver(m, f, o);
    var served := set c | c in m && m[c].Waiting? && m[c].flight == f;
    assert Those(after, IsMissed) == Those(m, IsMissed);
    assert Those(after, IsWaiting) == Those(m, IsWaiting) - served;
    assert Those(after, IsReady) == Those(m, IsReady) + served;
    assert served <= Those(m, IsWaiting) && served !! Those(m, IsReady);
  }

  lemma CheckWork(s: State, c: nat, key: Key, up: Upstream)
    requires Enabled(s, Check(c, key), up)
    ensures Work(Apply(s, Check(c, key), up)) <= Work(s) + 6
  {
    CallerUpdate(s.callers, c, Apply(s, Check(c, key), up).callers[c]);
  }

  lemma JoinWork(s: State, c: nat, up: Upstream)
    requires GroupInv(s) && Enabled(s, Join(c), up)
    ensures Work(Apply(s, Join(c), up)) < Work(s)
  {
    var t := Apply(s, Join(c), up);
    CallerUpdate(s.callers, c, t.callers[c]);
    if s.callers[c].key !in s.group {
      FlightUpdate(s.flights, |s.started|, t.flights[|s.started|]);
    }
  }

  lemma ReleaseWork(s: State, step: Step, up: Upstream)
    requires Enabled(s, step, up) && (step.Receive? || step.Leave?)
    ensures Work(Apply(s, step, up)) < Work(s)
  {
    CallerUpdate(s.callers, step.c, Apply(s, step, up).callers[step.c]);
  }

  lemma PhaseWork(s: State, step: Step, up: Upstream)
    requires Enabled(s, step, up) && (step.Reply? || step.Break? || step.WriteCache?)
    ensures Work(Apply(s, step, up)) < Work(s)
  {
    FlightUpdate(s.flights, step.f, Apply(s, step, up).flights[step.f]);
  }

  lemma CompleteWork(s: State, f: nat, up: Upstream)
    requires Enabled(s, Complete(f), up)
    ensures Work(Apply(s, Complete(f), up)) < Work(s)
  {
    FlightRemove(s.flights, f);
    DeliverWork(s.callers, f, Delivered(s.flights[f]));
  }

  /** Only a check adds work, at most six; a tick leaves it; every other step uses some up. */
  lemma StepUsesWork(s: State, step: Step, up: Upstream)
    requires Inv(s, up) && Enabled(s, step, up)
    ensures step.Tick? ==> Work(Apply(s, step, up)) == Work(s)
    ensures step.Check? ==> Work(Apply(s, step, up)) <= Work(s) + 6
    ensures !step.Tick? && !step.Check? ==> Work(Apply(s, step, up)) < Work(s)
  {
    if step.Receive? || step.Leave? {
      ReleaseWork(s, step, up);
    } else if step.Reply? || step.Break? || step.WriteCache? {
      PhaseWork(s, step, up);
    } else {
      match step
      case Check(c, key) => CheckWork(s, c, key, up);
      case Join(c) => JoinWork(s, c, up);
      case Complete(f) => CompleteWork(s, f, up);
      case _ =>
    }
  }

  // ----- runs -----

  function Calls(steps: seq<Step>): nat {
    if steps == [] then 0 else (if steps[0].Check? then 1 else 0) + Calls(steps[1..])
  }

  function Moves(steps: seq<Step>): nat {
    if steps == [] then 0 else (if steps[0].Tick? then 0 else 1) + Moves(steps[1..])
  }

  lemma {:induction false} RunUsesWork(s: State, steps: seq<Step>, up: Upstream)
    requires Inv(s, up) && Legal(s, steps, up)
    ensures Moves(steps) + Work(Exec(s, steps, up)) <= Work(s) + 7 * Calls(steps)
    decreases |steps|
  {
    if steps != [] {
      StepInv(s, steps[0], up);
      StepUsesWork(s, steps[0], up);
      RunUsesWork(Apply(s, steps[0], up), steps[1..], up);
    }
  }

  /**
   Ticks aside, a run takes at most seven steps per call; and where it cannot go on without a new
   call, a tick or a caller leaving, every caller is finished.
   */
  lemma CallsEnd(now: int, steps: seq<Step>, up: Upstream)
    requires Legal(Init(now), steps, up)
    ensures Moves(steps) <= 7 * Calls(steps)
    ensures var s := Exec(Init(now), steps, up);
            || (exists step :: Enabled(s, step, up) && !step.Tick? && !step.Check? && !step.Leave?)
            || (forall c :: c in s.callers ==> s.callers[c].Finished?)
  {
    RunUsesWork(Init(now), steps, up);
    assert Work(Init(now)) == 0;
    RunInv(Init(now), steps, up);
    Unfinished(Exec(Init(now), steps, up), up);
  }

  lemma Unfinished(s: State, up: Upstream)
    requires Inv(s, up)
    ensures || (exists step :: Enabled(s, step, up) && !step.Tick? && !step.Check? && !step.Leave?)
            || (forall c :: c in s.callers ==> s.callers[c].Finished?)
  {
    if c :| c in s.callers && !s.callers[c].Finished? {
      NoCallerStuck(s, up, c);
    }
  }
}
