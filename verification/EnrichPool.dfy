/**
 The worker pool of enrichPage in moddb/client.go: a feeder, workers and a collector around an
 unbuffered jobs channel and a results channel, under every schedule and with cancellation.
 */
module EnrichPool {
  import opened ModdbModels
  import opened Options

  datatype Lookup = Details(gameVersions: seq<string>, latestVersion: string) | LookupFailed(error: string)

  datatype Result = Result(i: nat, lookup: Lookup)

  datatype Worker = Idle | Looking(i: nat) | Holding(i: nat, lookup: Lookup) | Exited

  /** Feeding until the jobs channel is closed, waiting for the workers until the results channel is. */
  datatype Feeder = Feeding | JobsClosed | ResultsClosed

  /**
   `next` is the index the feeder offers next. `sent` is everything ever put into the results
   channel, `taken` how much of it the collector has received; the rest is in the buffer.
   */
  datatype Pool = Pool(items: seq<Mod>, feeder: Feeder, next: nat, workers: seq<Worker>,
                       sent: seq<Result>, taken: nat, finished: bool, done: bool)

  function WorkerCount(n: nat): nat { if n < 8 then n else 8 }

  function Init(items: seq<Mod>): Pool {
    Pool(items, Feeding, 0, seq(WorkerCount(|items|), _ => Idle), [], 0, false, false)
  }

  // ----- steps -----

  datatype Step =
    | Handoff(w: nat)                    // jobs <- i meets a receiving worker
    | FeederQuits                        // <-ctx.Done() wins, the jobs channel is closed
    | FeederEnds                         // every index was handed out, the jobs channel is closed
    | WorkerExits(w: nat)                // the closed jobs channel ends the worker's loop
    | Answer(w: nat)                     // Get returns its answer
    | AnswerCanceled(w: nat, error: string) // Get returns early because the context is done
    | Send(w: nat)                       // results <- result
    | CloseResults                       // wg.Wait() returned, the results channel is closed
    | Collect                            // the collector receives a result
    | Finish                             // the closed and empty results channel ends the collector
    | Cancel                             // the context becomes done

  predicate Enabled(s: Pool, step: Step) {
    match step
    case Handoff(w) => s.feeder.Feeding? && s.next < |s.items| && w < |s.workers| && s.workers[w].Idle?
    case FeederQuits => s.feeder.Feeding? && s.next < |s.items| && s.done
    case FeederEnds => s.feeder.Feeding? && s.next == |s.items|
    case WorkerExits(w) => !s.feeder.Feeding? && w < |s.workers| && s.workers[w].Idle?
    case Answer(w) => w < |s.workers| && s.workers[w].Looking?
    case AnswerCanceled(w, _) => s.done && w < |s.workers| && s.workers[w].Looking?
    case Send(w) => w < |s.workers| && s.workers[w].Holding? && |s.sent| - s.taken < |s.items|
    case CloseResults => s.feeder.JobsClosed? && forall w :: 0 <= w < |s.workers| ==> s.workers[w].Exited?
    case Collect => s.taken < |s.sent|
    case Finish => !s.finished && s.feeder.ResultsClosed? && s.taken == |s.sent|
    case Cancel => !s.done
  }

  /** `answer(i)` is what Get returns for item `i` while the context is not done. */
  function Apply(s: Pool, step: Step, answer: nat -> Lookup): Pool
    requires Enabled(s, step)
  {
    match step
    case Handoff(w) => s.(next := s.next + 1, workers := s.workers[w := Looking(s.next)])
    case FeederQuits => s.(feeder := JobsClosed)
    case FeederEnds => s.(feeder := JobsClosed)
    case WorkerExits(w) => s.(workers := s.workers[w := Exited])
    case Answer(w) => s.(workers := s.workers[w := Holding(s.workers[w].i, answer(s.workers[w].i))])
    case AnswerCanceled(w, e) => s.(workers := s.workers[w := Holding(s.workers[w].i, LookupFailed(e))])
    case Send(w) =>
      s.(sent := s.sent + [Result(s.workers[w].i, s.workers[w].lookup)], workers := s.workers[w := Idle])
    case CloseResults => s.(feeder := ResultsClosed)
    case Collect => s.(taken := s.taken + 1)
    case Finish => s.(finished := true)
    case Cancel => s.(done := true)
  }

  // ----- the invariant -----

  predicate HasJob(w: Worker) { w.Looking? || w.Holding? }

  predicate SentAt(s: Pool, k: int, i: int) { 0 <= k < |s.sent| && s.sent[k].i == i }

  predicate HeldBy(s: Pool, w: int, i: int) { 0 <= w < |s.workers| && HasJob(s.workers[w]) && s.workers[w].i == i }

  ghost predicate Somewhere(s: Pool, i: int) { (exists k :: SentAt(s, k, i)) || (exists w :: HeldBy(s, w, i)) }

  /** No index is anywhere twice. */
  ghost predicate Once(s: Pool) {
    && (forall j, k, i :: SentAt(s, j, i) && SentAt(s, k, i) ==> j == k)
    && (forall v, w, i :: HeldBy(s, v, i) && HeldBy(s, w, i) ==> v == w)
    && (forall k, w, i :: SentAt(s, k, i) ==> !HeldBy(s, w, i))
  }

  /** Exactly the indices handed out so far are somewhere. */
  ghost predicate Conserved(s: Pool) {
    && (forall k, i :: SentAt(s, k, i) ==> i < s.next)
    && (forall w, i :: HeldBy(s, w, i) ==> i < s.next)
    && (forall i :: 0 <= i < s.next ==> Somewhere(s, i))
  }

  ghost predicate Phases(s: Pool) {
    && |s.items| > 0 && |s.workers| == WorkerCount(|s.items|)
    && s.next <= |s.items| && s.taken <= |s.sent|
    && (!s.feeder.Feeding? && !s.done ==> s.next == |s.items|)
    && (forall w :: 0 <= w < |s.workers| && s.workers[w].Exited? ==> !s.feeder.Feeding?)
    && (s.feeder.ResultsClosed? ==> forall w :: 0 <= w < |s.workers| ==> s.workers[w].Exited?)
    && (s.finished ==> s.feeder.ResultsClosed? && s.taken == |s.sent|)
  }

  /** Until the context is done every lookup carries Get's answer. */
  ghost predicate Answered(s: Pool, answer: nat -> Lookup) {
    && (forall k :: 0 <= k < |s.sent| ==> s.sent[k].lookup == answer(s.sent[k].i))
    && (forall w :: 0 <= w < |s.workers| && s.workers[w].Holding? ==> s.workers[w].lookup == answer(s.workers[w].i))
  }

  ghost predicate Inv(s: Pool, answer: nat -> Lookup) {
    Phases(s) && Once(s) && Conserved(s) && (!s.done ==> Answered(s, answer))
  }

  lemma InitInv(items: seq<Mod>, answer: nat -> Lookup)
    requires items != []
    ensures Inv(Init(items), answer)
  {
  }

  lemma HandoffInv(s: Pool, w: nat, answer: nat -> Lookup)
    requires Inv(s, answer) && Enabled(s, Handoff(w))
    ensures Inv(Apply(s, Handoff(w), answer), answer)
  {
    var t := Apply(s, Handoff(w), answer);
    assert forall v, i :: HeldBy(t, v, i) <==> if v == w then i == s.next else HeldBy(s, v, i);
    assert forall k, i :: SentAt(t, k, i) <==> SentAt(s, k, i);
    forall i | 0 <= i < t.next ensures Somewhere(t, i) {
      assert i < s.next ==> Somewhere(s, i);
      if i == s.next {
        assert HeldBy(t, w, i);
      } else if v :| HeldBy(s, v, i) {
        assert HeldBy(t, v, i);
      } else {
        var k :| SentAt(s, k, i);
        assert SentAt(t, k, i);
      }
    }
  }

  lemma SendInv(s: Pool, w: nat, answer: nat -> Lookup)
    requires Inv(s, answer) && Enabled(s, Send(w))
    ensures Inv(Apply(s, Send(w), answer), answer)
  {
    var t, job := Apply(s, Send(w), answer), s.workers[w].i;
    assert HeldBy(s, w, job);
    assert forall v, i :: HeldBy(t, v, i) <==> v != w && HeldBy(s, v, i);
    assert forall k, i :: SentAt(t, k, i) <==> SentAt(s, k, i) || (k == |s.sent| && i == job);
    forall i | 0 <= i < t.next ensures Somewhere(t, i) {
      assert Somewhere(s, i);
      if i == job {
        assert SentAt(t, |s.sent|, i);
      } else if v :| HeldBy(s, v, i) {
        assert HeldBy(t, v, i);
      } else {
        var k :| SentAt(s, k, i);
        assert SentAt(t, k, i);
      }
    }
  }

  /** Steps that move no index. */
  lemma QuietInv(s: Pool, step: Step, answer: nat -> Lookup)
    requires Inv(s, answer) && Enabled(s, step) && !step.Handoff? && !step.Send?
    ensures Inv(Apply(s, step, answer), answer)
  {
    var t := Apply(s, step, answer);
    assert forall w, i :: HeldBy(t, w, i) <==> HeldBy(s, w, i);
    assert forall k, i :: SentAt(t, k, i) <==> SentAt(s, k, i);
    forall i | 0 <= i < t.next ensures Somewhere(t, i) {
      assert Somewhere(s, i);
      if w :| HeldBy(s, w, i) {
        assert HeldBy(t, w, i);
      } else {
        var k :| SentAt(s, k, i);
        assert SentAt(t, k, i);
      }
    }
  }

  lemma StepInv(s: Pool, step: Step, answer: nat -> Lookup)
    requires Inv(s, answer) && Enabled(s, step)
    ensures Inv(Apply(s, step, answer), answer)
  {
    match step
    case Handoff(w) => HandoffInv(s, w, answer);
    case Send(w) => SendInv(s, w, answer);
    case _ => QuietInv(s, step, answer);
  }

  // ----- the buffer -----

  function Range(n: nat): (r: set<nat>)
    ensures |r| == n && forall i: nat :: i in r <==> i < n
  {
    if n == 0 then {} else Range(n - 1) + {n - 1}
  }

  predicate Distinct(rs: seq<Result>) { forall j, k :: 0 <= j < k < |rs| ==> rs[j].i != rs[k].i }

  function Indices(rs: seq<Result>): set<nat> { set k | 0 <= k < |rs| :: rs[k].i }

  /** Distinct indices below `n` are at most `n`. */
  lemma Pigeonhole(rs: seq<Result>, n: nat)
    requires (forall k :: 0 <= k < |rs| ==> rs[k].i < n) && Distinct(rs)
    ensures |rs| <= n
  {
    DistinctCount(rs);
    assert Range(n) == Indices(rs) + (Range(n) - Indices(rs));
  }

  lemma {:induction false} DistinctCount(rs: seq<Result>)
    requires Distinct(rs)
    ensures |Indices(rs)| == |rs|
  {
    if rs != [] {
      var init, last := rs[..|rs| - 1], rs[|rs| - 1];
      DistinctCount(init);
      assert forall k :: 0 <= k < |init| ==> init[k] == rs[k];
      assert Indices(rs) == Indices(init) + {last.i};
      assert last.i !in Indices(init);
    }
  }

  /** The results buffer never holds more than its capacity, and a worker never waits to send. */
  lemma BufferNeverBlocks(s: Pool, answer: nat -> Lookup)
    requires Inv(s, answer)
    ensures |s.sent| <= |s.items|
    ensures forall w :: 0 <= w < |s.workers| && s.workers[w].Holding? ==> Enabled(s, Send(w))
  {
    forall j, k | 0 <= j < k < |s.sent| ensures s.sent[j].i != s.sent[k].i {
      assert SentAt(s, j, s.sent[j].i) && SentAt(s, k, s.sent[k].i);
    }
    forall k | 0 <= k < |s.sent| ensures s.sent[k].i < |s.items| {
      assert SentAt(s, k, s.sent[k].i);
    }
    Pigeonhole(s.sent, |s.items|);
    forall w | 0 <= w < |s.workers| && s.workers[w].Holding? ensures Enabled(s, Send(w)) {
      var more := s.sent + [Result(s.workers[w].i, s.workers[w].lookup)];
      assert HeldBy(s, w, s.workers[w].i);
      forall k | 0 <= k < |s.sent| ensures s.sent[k].i != s.workers[w].i {
        assert SentAt(s, k, s.sent[k].i);
      }
      Pigeonhole(more, |s.items|);
    }
  }

  // ----- progress -----

  /** Until the collector is finished some step other than a cancellation can be taken. */
  lemma NoDeadlock(s: Pool, answer: nat -> Lookup)
    requires Inv(s, answer) && !s.finished
    ensures exists step :: step != Cancel && Enabled(s, step)
  {
    BufferNeverBlocks(s, answer);
    if s.taken < |s.sent| {
      assert Enabled(s, Collect);
    } else if s.feeder.ResultsClosed? {
      assert Enabled(s, Finish);
    } else if s.feeder.Feeding? && s.next == |s.items| {
      assert Enabled(s, FeederEnds);
    } else if s.feeder.JobsClosed? && forall w :: 0 <= w < |s.workers| ==> s.workers[w].Exited? {
      assert Enabled(s, CloseResults);
    } else {
      var w: nat :| w < |s.workers| && !s.workers[w].Exited?;
      match s.workers[w]
      case Idle => assert if s.feeder.Feeding? then Enabled(s, Handoff(w)) else Enabled(s, WorkerExits(w));
      case Looking(_) => assert Enabled(s, Answer(w));
      case Holding(_, _) => assert Enabled(s, Send(w));
    }
  }

  function WorkerWork(w: Worker): nat {
    match w
    case Exited => 0
    case Idle => 1
    case Holding(_, _) => 3
    case Looking(_) => 4
  }

  function TotalWork(ws: seq<Worker>): nat {
    if ws == [] then 0 else TotalWork(ws[..|ws| - 1]) + WorkerWork(ws[|ws| - 1])
  }

  lemma {:induction false} WorkUpdate(ws: seq<Worker>, w: nat, x: Worker)
    requires w < |ws|
    ensures TotalWork(ws[w := x]) == TotalWork(ws) - WorkerWork(ws[w]) + WorkerWork(x)
  {
    var last := |ws| - 1;
    if w == last {
      assert ws[w := x][..last] == ws[..last];
    } else {
      WorkUpdate(ws[..last], w, x);
      assert ws[w := x][..last] == ws[..last][w := x];
    }
  }

  /** How many steps are left at most. */
  function Work(s: Pool): int {
    4 * (|s.items| - s.next) + TotalWork(s.workers) + (|s.sent| - s.taken) +
    (match s.feeder case Feeding => 2 case JobsClosed => 1 case ResultsClosed => 0) +
    (if s.finished then 0 else 1)
  }

  /** Every step but the cancellation uses up work. */
  lemma StepWork(s: Pool, step: Step, answer: nat -> Lookup)
    requires Inv(s, answer) && Enabled(s, step)
    ensures Work(s) >= 0
    ensures step == Cancel ==> Work(Apply(s, step, answer)) == Work(s)
    ensures step != Cancel ==> Work(Apply(s, step, answer)) < Work(s)
  {
    match step
    case Handoff(w) => WorkUpdate(s.workers, w, Looking(s.next));
    case WorkerExits(w) => WorkUpdate(s.workers, w, Exited);
    case Answer(w) => WorkUpdate(s.workers, w, Holding(s.workers[w].i, answer(s.workers[w].i)));
    case AnswerCanceled(w, e) => WorkUpdate(s.workers, w, Holding(s.workers[w].i, LookupFailed(e)));
    case Send(w) => WorkUpdate(s.workers, w, Idle);
    case _ =>
  }

  // ----- runs -----

  ghost predicate Legal(s: Pool, steps: seq<Step>, answer: nat -> Lookup)
    decreases |steps|
  {
    steps == [] || (Enabled(s, steps[0]) && Legal(Apply(s, steps[0], answer), steps[1..], answer))
  }

  ghost function Exec(s: Pool, steps: seq<Step>, answer: nat -> Lookup): Pool
    requires Legal(s, steps, answer)
    decreases |steps|
  {
    if steps == [] then s else Exec(Apply(s, steps[0], answer), steps[1..], answer)
  }

  function Moves(steps: seq<Step>): nat {
    if steps == [] then 0 else (if steps[0] == Cancel then 0 else 1) + Moves(steps[1..])
  }

  lemma {:induction false} RunInv(s: Pool, steps: seq<Step>, answer: nat -> Lookup)
    requires Inv(s, answer) && Legal(s, steps, answer)
    ensures Inv(Exec(s, steps, answer), answer)
    ensures Exec(s, steps, answer).items == s.items
    ensures Moves(steps) <= Work(s) - Work(Exec(s, steps, answer))
    decreases |steps|
  {
    if steps != [] {
      StepInv(s, steps[0], answer);
      StepWork(s, steps[0], answer);
      RunInv(Apply(s, steps[0], answer), steps[1..], answer);
    }
  }

  lemma {:induction false} IdleWork(n: nat)
    ensures TotalWork(seq(n, _ => Idle)) == n
  {
    if n > 0 {
      IdleWork(n - 1);
      assert seq(n, _ => Idle)[..n - 1] == seq(n - 1, _ => Idle);
    }
  }

  /**
   Under every schedule the pool stops: at most 4n + 11 steps are taken, and a run that is not
   finished can go on.
   */
  lemma PoolTerminates(items: seq<Mod>, steps: seq<Step>, answer: nat -> Lookup)
    requires items != [] && Legal(Init(items), steps, answer)
    ensures Moves(steps) <= 4 * |items| + 11
    ensures var s := Exec(Init(items), steps, answer);
            s.finished || exists step :: step != Cancel && Enabled(s, step)
  {
    InitInv(items, answer);
    RunInv(Init(items), steps, answer);
    IdleWork(WorkerCount(|items|));
    assert Init(items).workers == seq(WorkerCount(|items|), _ => Idle);
    var s := Exec(Init(items), steps, answer);
    WorkNonNegative(s, answer);
    if !s.finished { NoDeadlock(s, answer); }
  }

  lemma WorkNonNegative(s: Pool, answer: nat -> Lookup)
    requires Inv(s, answer)
    ensures Work(s) >= 0
  {
  }

  // ----- how many lookups there are at once -----

  /** The first `m` items are handed to a worker each. */
  function Handoffs(m: nat): seq<Step> { seq(m, w requires 0 <= w < m => Handoff(w)) }

  /** The first `m` of `n` workers look up the item of their own number. */
  function Busy(n: nat, m: nat): seq<Worker> {
    seq(n, w requires 0 <= w < n => if w < m then Looking(w) else Idle)
  }

  lemma {:induction false} LegalAppend(s: Pool, steps: seq<Step>, step: Step, answer: nat -> Lookup)
    requires Legal(s, steps, answer) && Enabled(Exec(s, steps, answer), step)
    ensures Legal(s, steps + [step], answer)
    ensures Exec(s, steps + [step], answer) == Apply(Exec(s, steps, answer), step, answer)
    decreases |steps|
  {
    if steps == [] {
      assert steps + [step] == [step] && [step][1..] == [];
    } else {
      LegalAppend(Apply(s, steps[0], answer), steps[1..], step, answer);
      assert (steps + [step])[1..] == steps[1..] + [step];
    }
  }

  lemma {:induction false} HandoffsFill(items: seq<Mod>, m: nat, answer: nat -> Lookup)
    requires m <= |items| && m <= WorkerCount(|items|)
    ensures Legal(Init(items), Handoffs(m), answer)
    ensures Exec(Init(items), Handoffs(m), answer) ==
            Init(items).(next := m, workers := Busy(WorkerCount(|items|), m))
  {
    if m == 0 {
      assert Init(items).workers == Busy(WorkerCount(|items|), 0);
    } else {
      HandoffsFill(items, m - 1, answer);
      LegalAppend(Init(items), Handoffs(m - 1), Handoff(m - 1), answer);
      assert Handoffs(m) == Handoffs(m - 1) + [Handoff(m - 1)];
      var t := Exec(Init(items), Handoffs(m), answer);
      assert t.workers == Busy(WorkerCount(|items|), m);
    }
  }

  function LookingSet(s: Pool): set<nat> { set w | 0 <= w < |s.workers| && s.workers[w].Looking? }

  /** At most eight lookups, and no more than there are items, are in progress at once; that many can be. */
  lemma EightAtOnce(items: seq<Mod>, answer: nat -> Lookup)
    requires items != []
    ensures forall s :: Inv(s, answer) && s.items == items ==> |s.workers| <= 8 && |s.workers| <= |items|
    ensures var m := if |items| < 8 then |items| else 8;
            Legal(Init(items), Handoffs(m), answer) && LookingSet(Exec(Init(items), Handoffs(m), answer)) == Range(m)
  {
    HandoffsFill(items, if |items| < 8 then |items| else 8, answer);
  }

  // ----- the collector -----

  datatype Collected = Collected(out: seq<Mod>, firstErr: Option<string>, failures: nat)

  function EnrichWith(m: Mod, lookup: Lookup): Mod {
    match lookup
    case Details(gv, latest) => m.(gameVersions := gv, latestVersion := latest)
    case LookupFailed(_) => m
  }

  /** What the collector has made of the results received in this order. */
  function Collection(items: seq<Mod>, rs: seq<Result>): (c: Collected)
    requires forall k :: 0 <= k < |rs| ==> rs[k].i < |items|
    ensures |c.out| == |items|
  {
    if rs == [] then Collected(items, None, 0)
    else
      var c, r := Collection(items, rs[..|rs| - 1]), rs[|rs| - 1];
      match r.lookup
      case Details(_, _) => c.(out := c.out[r.i := EnrichWith(c.out[r.i], r.lookup)])
      case LookupFailed(e) =>
        c.(failures := c.failures + 1, firstErr := if c.firstErr.None? then Some(e) else c.firstErr)
  }

  /** The loop over the results channel, updating the copied page in place. */
  method CollectResults(items: seq<Mod>, rs: seq<Result>)
    returns (out: array<Mod>, firstErr: Option<string>, failures: nat)
    requires forall k :: 0 <= k < |rs| ==> rs[k].i < |items|
    ensures fresh(out) && Collection(items, rs) == Collected(out[..], firstErr, failures)
  {
    out := new Mod[|items|](i requires 0 <= i < |items| => items[i]);
    assert out[..] == items;
    firstErr, failures := None, 0;
    for k := 0 to |rs|
      invariant fresh(out) && out.Length == |items|
      invariant Collection(items, rs[..k]) == Collected(out[..], firstErr, failures)
    {
      var x := rs[k];
      assert rs[..k + 1][..k] == rs[..k];
      match x.lookup
      case LookupFailed(e) =>
        failures := failures + 1;
        if firstErr.None? {
          firstErr := Some(e);
        }
      case Details(gv, latest) =>
        out[x.i] := out[x.i].(gameVersions := gv);
        out[x.i] := out[x.i].(latestVersion := latest);
    }
    assert rs[..|rs|] == rs;
  }

  /** Results with distinct indices each enrich their own item, whatever their order. */
  lemma {:induction false} CollectionPointwise(items: seq<Mod>, rs: seq<Result>)
    requires (forall k :: 0 <= k < |rs| ==> rs[k].i < |items|) && Distinct(rs)
    ensures forall k :: 0 <= k < |rs| ==> Collection(items, rs).out[rs[k].i] == EnrichWith(items[rs[k].i], rs[k].lookup)
    ensures forall i :: 0 <= i < |items| && (forall k :: 0 <= k < |rs| ==> rs[k].i != i) ==>
              Collection(items, rs).out[i] == items[i]
  {
    if rs != [] {
      var init, r := rs[..|rs| - 1], rs[|rs| - 1];
      CollectionPointwise(items, init);
      assert forall k :: 0 <= k < |init| ==> init[k] == rs[k];
      assert Collection(items, init).out[r.i] == items[r.i];
      forall i | 0 <= i < |items| && (forall k :: 0 <= k < |rs| ==> rs[k].i != i)
        ensures Collection(items, rs).out[i] == items[i]
      {
        assert r.i != i && forall k :: 0 <= k < |init| ==> init[k].i != i;
      }
    }
  }

  function FailedIn(rs: seq<Result>): set<nat> {
    set k | 0 <= k < |rs| && rs[k].lookup.LookupFailed? :: rs[k].i
  }

  lemma {:induction false} CollectionFailures(items: seq<Mod>, rs: seq<Result>)
    requires (forall k :: 0 <= k < |rs| ==> rs[k].i < |items|) && Distinct(rs)
    ensures Collection(items, rs).failures == |FailedIn(rs)|
  {
    if rs != [] {
      var init, r := rs[..|rs| - 1], rs[|rs| - 1];
      CollectionFailures(items, init);
      assert forall k :: 0 <= k < |init| ==> init[k] == rs[k];
      assert FailedIn(rs) == FailedIn(init) + if r.lookup.LookupFailed? then {r.i} else {};
      assert r.i !in FailedIn(init);
    }
  }

  /** Result `k` is the first failed one and carries the error. */
  predicate FirstFailure(rs: seq<Result>, k: int, error: string) {
    0 <= k < |rs| && rs[k].lookup == LookupFailed(error) && forall j :: 0 <= j < k ==> rs[j].lookup.Details?
  }

  lemma {:induction false} CollectionFirstError(items: seq<Mod>, rs: seq<Result>)
    requires forall k :: 0 <= k < |rs| ==> rs[k].i < |items|
    ensures var c := Collection(items, rs);
            && (c.firstErr.None? <==> forall k :: 0 <= k < |rs| ==> rs[k].lookup.Details?)
            && (c.firstErr.Some? ==> exists k :: FirstFailure(rs, k, c.firstErr.value))
  {
    if rs != [] {
      var init := rs[..|rs| - 1];
      CollectionFirstError(items, init);
      assert forall k :: 0 <= k < |init| ==> init[k] == rs[k];
      var c := Collection(items, init);
      if c.firstErr.Some? {
        var k :| FirstFailure(init, k, c.firstErr.value);
        assert FirstFailure(rs, k, c.firstErr.value);
      } else if rs[|rs| - 1].lookup.LookupFailed? {
        assert FirstFailure(rs, |rs| - 1, rs[|rs| - 1].lookup.error);
      }
    }
  }

  // ----- the result -----

  /** What enrichPage returns: no items once the context is done, else the page and the failures. */
  datatype Enriched = ContextDone | Enriched(items: seq<Mod>, failures: nat, firstErr: Option<string>)

  function ResultOf(s: Pool): Enriched
    requires forall k :: 0 <= k < |s.sent| ==> s.sent[k].i < |s.items|
  {
    if s.done then ContextDone
    else var c := Collection(s.items, s.sent); Enriched(c.out, c.failures, c.firstErr)
  }

  /** Every index was delivered once, with Get's answer. */
  ghost predicate Complete(rs: seq<Result>, n: nat, answer: nat -> Lookup) {
    && |rs| == n && Distinct(rs) && Indices(rs) == Range(n)
    && (forall k :: 0 <= k < |rs| ==> rs[k].i < n && rs[k].lookup == answer(rs[k].i))
  }

  /** The enrichment of a page, with no reference to a schedule. */
  ghost predicate IsEnrichment(r: Enriched, items: seq<Mod>, answer: nat -> Lookup) {
    && r.Enriched? && |r.items| == |items|
    && (forall i: nat :: i < |items| ==>
          r.items[i] ==
          match answer(i)
          case Details(gv, latest) => items[i].(gameVersions := gv, latestVersion := latest)
          case LookupFailed(_) => items[i])
    && r.failures == |set i | 0 <= i < |items| && answer(i).LookupFailed?|
    && (r.firstErr.None? <==> forall i: nat :: i < |items| ==> answer(i).Details?)
  }

  lemma {:induction false} DoneIff(s: Pool, steps: seq<Step>, answer: nat -> Lookup)
    requires Legal(s, steps, answer)
    ensures Exec(s, steps, answer).done <==> s.done || Cancel in steps
    decreases |steps|
  {
    if steps != [] {
      DoneIff(Apply(s, steps[0], answer), steps[1..], answer);
      assert Cancel in steps <==> steps[0] == Cancel || Cancel in steps[1..];
    }
  }

  lemma SentInRange(s: Pool, answer: nat -> Lookup)
    requires Inv(s, answer)
    ensures forall k :: 0 <= k < |s.sent| ==> s.sent[k].i < |s.items|
  {
    forall k | 0 <= k < |s.sent| ensures s.sent[k].i < |s.items| {
      assert SentAt(s, k, s.sent[k].i);
    }
  }

  /**
   A finished run whose context was done returns no items. Any other has looked up every item once,
   and its result is the pointwise enrichment of the page, the same for every schedule, with the
   error that was received first.
   */
  lemma ScheduleIndependent(items: seq<Mod>, steps: seq<Step>, answer: nat -> Lookup)
    requires items != [] && Legal(Init(items), steps, answer) && Exec(Init(items), steps, answer).finished
    ensures var s := Exec(Init(items), steps, answer);
            && s.items == items && (forall k :: 0 <= k < |s.sent| ==> s.sent[k].i < |s.items|)
            && (ResultOf(s).ContextDone? <==> Cancel in steps)
            && (Cancel !in steps ==>
                  && Complete(s.sent, |items|, answer) && IsEnrichment(ResultOf(s), items, answer)
                  && (ResultOf(s).firstErr.Some? ==>
                        exists k :: FirstFailure(s.sent, k, ResultOf(s).firstErr.value)))
  {
    InitInv(items, answer);
    RunInv(Init(items), steps, answer);
    DoneIff(Init(items), steps, answer);
    var s := Exec(Init(items), steps, answer);
    SentInRange(s, answer);
    if Cancel !in steps {
      FinishedPool(s, answer);
      CompleteIsEnrichment(items, s.sent, answer);
      CollectionFirstError(items, s.sent);
    }
  }

  // ----- a canceled page -----

  lemma WindDownStep(s: Pool, answer: nat -> Lookup) returns (step: Step)
    requires Inv(s, answer) && s.done && !s.finished
    ensures Enabled(s, step) && step != Cancel && !step.Handoff? && !step.Answer?
  {
    BufferNeverBlocks(s, answer);
    if s.taken < |s.sent| {
      step := Collect;
    } else if s.feeder.ResultsClosed? {
      step := Finish;
    } else if s.feeder.Feeding? {
      step := if s.next == |s.items| then FeederEnds else FeederQuits;
    } else if forall w :: 0 <= w < |s.workers| ==> s.workers[w].Exited? {
      step := CloseResults;
    } else {
      var w: nat :| w < |s.workers| && !s.workers[w].Exited?;
      match s.workers[w]
      case Idle => step := WorkerExits(w);
      case Looking(_) => step := AnswerCanceled(w, "");
      case Holding(_, _) => step := Send(w);
    }
  }

  /** Once the context is done the pool can end with no further hand-off and no further answer. */
  lemma {:induction false} WindDown(s: Pool, answer: nat -> Lookup) returns (steps: seq<Step>)
    requires Inv(s, answer) && s.done
    ensures Legal(s, steps, answer) && Exec(s, steps, answer).finished && Exec(s, steps, answer).done
    ensures forall x :: x in steps ==> !x.Handoff? && !x.Answer?
    decreases if Work(s) < 0 then 0 else Work(s)
  {
    steps := [];
    if !s.finished {
      var step := WindDownStep(s, answer);
      var t := Apply(s, step, answer);
      StepInv(s, step, answer);
      StepWork(s, step, answer);
      WorkNonNegative(t, answer);
      var rest := WindDown(t, answer);
      steps := [step] + rest;
      assert steps[0] == step && steps[1..] == rest;
    }
  }

  /** At any time the page can be canceled; it then ends without waiting for Get and returns no items. */
  lemma CancelEnds(s: Pool, answer: nat -> Lookup) returns (steps: seq<Step>)
    requires Inv(s, answer) && !s.done
    ensures Legal(s, [Cancel] + steps, answer)
    ensures forall x :: x in steps ==> !x.Handoff? && !x.Answer?
    ensures var t := Exec(s, [Cancel] + steps, answer);
            && t.finished && (forall k :: 0 <= k < |t.sent| ==> t.sent[k].i < |t.items|)
            && ResultOf(t) == ContextDone
  {
    var canceled := Apply(s, Cancel, answer);
    StepInv(s, Cancel, answer);
    steps := WindDown(canceled, answer);
    var all := [Cancel] + steps;
    assert all[0] == Cancel && all[1..] == steps;
    RunInv(s, all, answer);
    SentInRange(Exec(s, all, answer), answer);
  }

  lemma FinishedPool(s: Pool, answer: nat -> Lookup)
    requires Inv(s, answer) && s.finished && !s.done
    ensures Complete(s.sent, |s.items|, answer)
  {
    forall j, k | 0 <= j < k < |s.sent| ensures s.sent[j].i != s.sent[k].i {
      assert SentAt(s, j, s.sent[j].i) && SentAt(s, k, s.sent[k].i);
    }
    forall k | 0 <= k < |s.sent| ensures s.sent[k].i < |s.items| {
      assert SentAt(s, k, s.sent[k].i);
    }
    forall i: nat | i < |s.items| ensures i in Indices(s.sent) {
      assert Somewhere(s, i) && forall w :: !HeldBy(s, w, i);
      var k :| SentAt(s, k, i);
    }
    DistinctCount(s.sent);
    assert Indices(s.sent) == Range(|s.items|);
  }

  lemma CompleteIsEnrichment(items: seq<Mod>, rs: seq<Result>, answer: nat -> Lookup)
    requires Complete(rs, |items|, answer)
    ensures var c := Collection(items, rs);
            IsEnrichment(Enriched(c.out, c.failures, c.firstErr), items, answer)
  {
    PointwiseOut(items, rs, answer);
    CollectionFailures(items, rs);
    FailedAnswers(rs, |items|, answer);
    NoneFailed(items, rs, answer);
  }

  lemma NoneFailed(items: seq<Mod>, rs: seq<Result>, answer: nat -> Lookup)
    requires Complete(rs, |items|, answer)
    ensures Collection(items, rs).firstErr.None? <==> forall i: nat :: i < |items| ==> answer(i).Details?
  {
    CollectionFirstError(items, rs);
    if forall k :: 0 <= k < |rs| ==> rs[k].lookup.Details? {
      forall i: nat | i < |items| ensures answer(i).Details? {
        assert i in Indices(rs);
        var k :| 0 <= k < |rs| && rs[k].i == i;
      }
    }
  }

  lemma PointwiseOut(items: seq<Mod>, rs: seq<Result>, answer: nat -> Lookup)
    requires (forall k :: 0 <= k < |rs| ==> rs[k].i < |items| && rs[k].lookup == answer(rs[k].i))
    requires Distinct(rs) && Indices(rs) == Range(|items|)
    ensures Collection(items, rs).out == seq(|items|, i requires 0 <= i < |items| => EnrichWith(items[i], answer(i)))
  {
    CollectionPointwise(items, rs);
    forall i: nat | i < |items| ensures Collection(items, rs).out[i] == EnrichWith(items[i], answer(i)) {
      assert i in Indices(rs);
      var k :| 0 <= k < |rs| && rs[k].i == i;
    }
  }

  lemma FailedAnswers(rs: seq<Result>, n: nat, answer: nat -> Lookup)
    requires forall k :: 0 <= k < |rs| ==> rs[k].i < n && rs[k].lookup == answer(rs[k].i)
    requires Indices(rs) == Range(n)
    ensures FailedIn(rs) == set i | 0 <= i < n && answer(i).LookupFailed?
  {
    forall i: nat | i < n && answer(i).LookupFailed? ensures i in FailedIn(rs) {
      assert i in Indices(rs);
      var k :| 0 <= k < |rs| && rs[k].i == i;
    }
  }
}
