/** How many requests whole runs of the protocol make, and which of them the caches could have answered. */
module FlightRequests {
  import opened Flights
  import opened ModdbModels
  import opened Options
  import opened SharedCache

  // ----- requests are conserved -----

  function Count(keys: seq<Key>, k: Key): nat {
    if keys == [] then 0 else Count(keys[..|keys| - 1], k) + if keys[|keys| - 1] == k then 1 else 0
  }

  lemma CountAppend(keys: seq<Key>, x: Key, k: Key)
    ensures Count(keys + [x], k) == Count(keys, k) + if x == k then 1 else 0
  {
  }

  /** Every request started is completed or the one in progress for its key. */
  ghost predicate RequestsConserved(s: State) {
    forall k :: Count(s.started, k) == Count(s.completed, k) + if k in s.group then 1 else 0
  }

  lemma JoinConserves(s: State, c: nat, up: Upstream)
    requires Enabled(s, Join(c), up) && RequestsConserved(s)
    ensures RequestsConserved(Apply(s, Join(c), up))
  {
  }

  lemma CompleteConserves(s: State, f: nat, up: Upstream)
    requires Enabled(s, Complete(f), up) && s.flights[f].key in s.group && RequestsConserved(s)
    ensures RequestsConserved(Apply(s, Complete(f), up))
  {
    var t, key := Apply(s, Complete(f), up), s.flights[f].key;
    forall k ensures Count(t.started, k) == Count(t.completed, k) + if k in t.group then 1 else 0 {
      assert Count(s.started, k) == Count(s.completed, k) + if k in s.group then 1 else 0;
      CountAppend(s.completed, key, k);
      assert k in t.group <==> k in s.group && k != key;
    }
  }

  lemma StepConserves(s: State, step: Step, up: Upstream)
    requires Inv(s, up) && Enabled(s, step, up) && RequestsConserved(s)
    ensures RequestsConserved(Apply(s, step, up))
  {
    if step.Join? {
      JoinConserves(s, step.c, up);
    } else if step.Complete? {
      CompleteConserves(s, step.f, up);
    }
  }

  lemma {:induction false} RunConserves(s: State, steps: seq<Step>, up: Upstream)
    requires Inv(s, up) && RequestsConserved(s) && Legal(s, steps, up)
    ensures Inv(Exec(s, steps, up), up) && RequestsConserved(Exec(s, steps, up))
    decreases |steps|
  {
    if steps != [] {
      StepInv(s, steps[0], up);
      StepConserves(s, steps[0], up);
      RunConserves(Apply(s, steps[0], up), steps[1..], up);
    }
  }

  // ----- when the caches could have answered -----

  predicate Answerable(s: State, k: Key) { Hit(Holds(s.cache, k), k, s.now) }

  predicate Stores(log: seq<Write>, i: int, k: Key) {
    0 <= i < |log| && k in Aliases(log[i].key, log[i].value)
  }

  /** Write `i`, not before position `from`, is the last that stored under the key, and still answers. */
  ghost predicate RefreshedBy(s: State, k: Key, from: nat, i: int) {
    && from <= i && Stores(s.log, i, k) && (forall j :: i < j ==> !Stores(s.log, j, k))
    && s.now - s.log[i].at < TTL(k)
    && (k.Catalog? ==> s.log[i].value.Listing? && s.log[i].value.mods != [])
  }

  /** The key of a caller that missed was written since its check, and the last write still answers. */
  ghost predicate Refreshed(s: State, c: Caller)
    requires c.Missed?
  {
    exists i :: RefreshedBy(s, c.key, c.readAt, i)
  }

  /** The last of the writes m to n - 1 that stored under `k`, -1 if there is none. */
  function LastStore(log: seq<Write>, m: nat, n: nat, k: Key): int
    requires m <= n <= |log|
    decreases n
  {
    if n == m then -1 else if Stores(log, n - 1, k) then n - 1 else LastStore(log, m, n - 1, k)
  }

  lemma {:induction false} LastStoreIsLast(log: seq<Write>, m: nat, n: nat, k: Key)
    requires m <= n <= |log|
    ensures var i := LastStore(log, m, n, k);
            && (forall j :: m <= j < n && i < j ==> !Stores(log, j, k))
            && if i < 0 then LastWrite(log, n, k) == LastWrite(log, m, k)
               else m <= i < n && Stores(log, i, k) && LastWrite(log, n, k) == Some(log[i])
    decreases n
  {
    if m < n { LastStoreIsLast(log, m, n - 1, k); }
  }

  /**
   A caller that missed is about to ask for what the caches could answer exactly when they were
   refreshed between its check and now.
   */
  lemma AnswerableIffRefreshed(s: State, up: Upstream, c: nat)
    requires Inv(s, up) && c in s.callers && s.callers[c].Missed?
    ensures Answerable(s, s.callers[c].key) <==> Refreshed(s, s.callers[c])
  {
    var k, readAt := s.callers[c].key, s.callers[c].readAt;
    assert CallerInv(s, s.callers[c]);
    CacheHolds(s, k);
    LastStoreIsLast(s.log, readAt, |s.log|, k);
    var i := LastStore(s.log, readAt, |s.log|, k);
    if i >= 0 {
      assert Answerable(s, k) <==> RefreshedBy(s, k, readAt, i);
    }
  }

  // ----- needless requests of a run -----

  /** The caller finds no flight of its key and starts a request. */
  predicate Starts(s: State, step: Step, k: Key) {
    step.Join? && step.c in s.callers && s.callers[step.c].Missed? && s.callers[step.c].key == k && k !in s.group
  }

  /** The requests a run starts for a key. */
  ghost function Requests(s: State, steps: seq<Step>, up: Upstream, k: Key): nat
    requires Legal(s, steps, up)
    decreases |steps|
  {
    if steps == [] then 0
    else (if Starts(s, steps[0], k) then 1 else 0) + Requests(Apply(s, steps[0], up), steps[1..], up, k)
  }

  /** Those that start while the caches could answer. */
  ghost function Needless(s: State, steps: seq<Step>, up: Upstream, k: Key): nat
    requires Legal(s, steps, up)
    decreases |steps|
  {
    if steps == [] then 0
    else (if Starts(s, steps[0], k) && Answerable(s, k) then 1 else 0) +
         Needless(Apply(s, steps[0], up), steps[1..], up, k)
  }

  /** Those whose caller's key was refreshed since it missed. */
  ghost function AfterRefresh(s: State, steps: seq<Step>, up: Upstream, k: Key): nat
    requires Legal(s, steps, up)
    decreases |steps|
  {
    if steps == [] then 0
    else (if Starts(s, steps[0], k) && Refreshed(s, s.callers[steps[0].c]) then 1 else 0) +
         AfterRefresh(Apply(s, steps[0], up), steps[1..], up, k)
  }

  /** Over a whole run the needless requests are, one for one, those after a refresh. */
  lemma {:induction false} NeedlessIsAfterRefresh(s: State, steps: seq<Step>, up: Upstream, k: Key)
    requires Inv(s, up) && Legal(s, steps, up)
    ensures Needless(s, steps, up, k) == AfterRefresh(s, steps, up, k)
    decreases |steps|
  {
    if steps != [] {
      if Starts(s, steps[0], k) { AnswerableIffRefreshed(s, up, steps[0].c); }
      StepInv(s, steps[0], up);
      NeedlessIsAfterRefresh(Apply(s, steps[0], up), steps[1..], up, k);
    }
  }

  lemma StartIsCounted(s: State, step: Step, up: Upstream, k: Key)
    requires Enabled(s, step, up)
    ensures Count(Apply(s, step, up).started, k) == Count(s.started, k) + if Starts(s, step, k) then 1 else 0
  {
    if step.Join? { CountAppend(s.started, s.callers[step.c].key, k); }
  }

  lemma {:induction false} RequestsAreCounted(s: State, steps: seq<Step>, up: Upstream, k: Key)
    requires Legal(s, steps, up)
    ensures Count(Exec(s, steps, up).started, k) == Count(s.started, k) + Requests(s, steps, up, k)
    decreases |steps|
  {
    if steps != [] {
      StartIsCounted(s, steps[0], up, k);
      RequestsAreCounted(Apply(s, steps[0], up), steps[1..], up, k);
    }
  }

  // ----- at most one request is needed -----

  /** No fetch of the key fails in the run. */
  ghost predicate NoFailure(s: State, steps: seq<Step>, up: Upstream, k: Key)
    requires Legal(s, steps, up)
    decreases |steps|
  {
    steps != [] ==>
      && !(steps[0].Break? && s.flights[steps[0].f].key == k)
      && NoFailure(Apply(s, steps[0], up), steps[1..], up, k)
  }

  /** What is answered for the key counts as present: the full catalog is a non-empty list. */
  ghost predicate Substantial(up: Upstream, k: Key) {
    k.Catalog? ==> forall t :: up(t, k).Some? ==> up(t, k).value.Listing? && up(t, k).value.mods != []
  }

  /** Something was stored under the key since position `from`. */
  ghost predicate StoredSince(s: State, k: Key, from: nat) { exists i :: from <= i && Stores(s.log, i, k) }

  /** The key was stored since, or a flight is on its way to store it. */
  ghost predicate Covered(s: State, k: Key, from: nat) {
    || StoredSince(s, k, from)
    || (k in s.group && s.group[k] in s.flights &&
        (s.flights[s.group[k]].phase.Fetching? || s.flights[s.group[k]].phase.Replied?))
  }

  /** Writes from position `from` on are not before `start`. */
  ghost predicate WrittenSince(s: State, from: nat, start: int) {
    from <= |s.log| && start <= s.now && forall i :: from <= i < |s.log| ==> start <= s.log[i].at
  }

  lemma WrittenSinceStep(s: State, step: Step, up: Upstream, from: nat, start: int)
    requires WrittenSince(s, from, start) && Enabled(s, step, up)
    ensures WrittenSince(Apply(s, step, up), from, start)
  {
  }

  lemma StoredStaysStored(s: State, step: Step, up: Upstream, k: Key, from: nat)
    requires Enabled(s, step, up) && StoredSince(s, k, from)
    ensures StoredSince(Apply(s, step, up), k, from)
  {
    var i :| from <= i && Stores(s.log, i, k);
    assert Stores(Apply(s, step, up).log, i, k);
  }

  lemma WriteStores(s: State, step: Step, up: Upstream, from: nat)
    requires Enabled(s, step, up) && step.WriteCache? && from <= |s.log|
    ensures StoredSince(Apply(s, step, up), s.flights[step.f].key, from)
  {
    assert Stores(Apply(s, step, up).log, |s.log|, s.flights[step.f].key);
  }

  lemma CoveredStep(s: State, step: Step, up: Upstream, k: Key, from: nat)
    requires GroupInv(s) && Enabled(s, step, up) && Covered(s, k, from) && from <= |s.log|
    requires !(step.Break? && s.flights[step.f].key == k)
    ensures Covered(Apply(s, step, up), k, from)
  {
    if StoredSince(s, k, from) {
      StoredStaysStored(s, step, up, k, from);
    } else if step.WriteCache? && s.flights[step.f].key == k {
      WriteStores(s, step, up, from);
    }
  }

  /** What was stored during the last TTL still answers. */
  lemma StoredAnswers(s: State, up: Upstream, k: Key, from: nat, start: int)
    requires Inv(s, up) && WrittenSince(s, from, start) && StoredSince(s, k, from)
    requires s.now - start < TTL(k) && Substantial(up, k)
    ensures Answerable(s, k)
  {
    CacheHolds(s, k);
    LastStoreIsLast(s.log, from, |s.log|, k);
    var i := LastStore(s.log, from, |s.log|, k);
    assert i >= 0 && LogInv(s, up) && up(s.log[i].repliedAt, s.log[i].key) == Some(s.log[i].value);
  }

  lemma {:induction false} TimeGrows(s: State, steps: seq<Step>, up: Upstream)
    requires Legal(s, steps, up)
    ensures s.now <= Exec(s, steps, up).now
    decreases |steps|
  {
    if steps != [] { TimeGrows(Apply(s, steps[0], up), steps[1..], up); }
  }

  lemma {:induction false} CoveredRun(s: State, steps: seq<Step>, up: Upstream, k: Key, from: nat, start: int)
    requires Inv(s, up) && Legal(s, steps, up) && WrittenSince(s, from, start)
    requires NoFailure(s, steps, up, k) && Substantial(up, k) && Exec(s, steps, up).now - start < TTL(k)
    ensures Requests(s, steps, up, k) <= Needless(s, steps, up, k) + if Covered(s, k, from) then 0 else 1
    decreases |steps|
  {
    if steps != [] {
      var step, t := steps[0], Apply(s, steps[0], up);
      StepInv(s, step, up);
      WrittenSinceStep(s, step, up, from, start);
      CoveredRun(t, steps[1..], up, k, from, start);
      if Covered(s, k, from) {
        CoveredStep(s, step, up, k, from);
        if Starts(s, step, k) {
          TimeGrows(s, steps, up);
          StoredAnswers(s, up, k, from, start);
        }
      } else if Starts(s, step, k) {
        assert Covered(t, k, from);
      }
    }
  }

  /**
   From any reachable state, while less than the TTL passes and no fetch of the key fails, at most
   one request is made that the caches could not answer.
   */
  lemma OneNecessaryRequest(s: State, steps: seq<Step>, up: Upstream, k: Key)
    requires Inv(s, up) && Legal(s, steps, up)
    requires NoFailure(s, steps, up, k) && Substantial(up, k) && Exec(s, steps, up).now - s.now < TTL(k)
    ensures Requests(s, steps, up, k) <= Needless(s, steps, up, k) + 1
  {
    CoveredRun(s, steps, up, k, |s.log|, s.now);
  }

  // ----- exactly one request -----

  /** The requests after the first one whose caller's key was refreshed since it missed. */
  ghost function Repeats(s: State, steps: seq<Step>, up: Upstream, k: Key): nat
    requires Legal(s, steps, up)
    decreases |steps|
  {
    if steps == [] then 0
    else (if k in s.started && Starts(s, steps[0], k) && Refreshed(s, s.callers[steps[0].c]) then 1 else 0) +
         Repeats(Apply(s, steps[0], up), steps[1..], up, k)
  }

  /** Once a request was made, every request after a refresh is a repetition. */
  lemma {:induction false} RepeatsOnceStarted(s: State, steps: seq<Step>, up: Upstream, k: Key)
    requires Legal(s, steps, up) && k in s.started
    ensures Repeats(s, steps, up, k) == AfterRefresh(s, steps, up, k)
    decreases |steps|
  {
    if steps != [] { RepeatsOnceStarted(Apply(s, steps[0], up), steps[1..], up, k); }
  }

  /** Once the key is covered, all its requests are repetitions after a refresh. */
  lemma CoveredRepeats(s: State, steps: seq<Step>, up: Upstream, k: Key, start: int)
    requires Inv(s, up) && Legal(s, steps, up) && WrittenSince(s, 0, start) && k in s.started && Covered(s, k, 0)
    requires NoFailure(s, steps, up, k) && Substantial(up, k) && Exec(s, steps, up).now - start < TTL(k)
    ensures Requests(s, steps, up, k) == Repeats(s, steps, up, k) && k in Exec(s, steps, up).started
  {
    CoveredRun(s, steps, up, k, 0, start);
    NeedlessAtMost(s, steps, up, k);
    NeedlessIsAfterRefresh(s, steps, up, k);
    RepeatsOnceStarted(s, steps, up, k);
    StaysStarted(s, steps, up, k);
  }

  lemma StartCovers(s: State, step: Step, up: Upstream, k: Key)
    requires Enabled(s, step, up) && Starts(s, step, k)
    ensures Covered(Apply(s, step, up), k, 0) && k in Apply(s, step, up).started
  {
  }

  lemma OthersStartOther(s: State, step: Step, up: Upstream, k: Key)
    requires Enabled(s, step, up) && !Starts(s, step, k) && k !in s.started
    ensures k !in Apply(s, step, up).started
  {
  }

  /** The first request covers the key. */
  lemma {:induction false} FirstThenRepeats(s: State, steps: seq<Step>, up: Upstream, k: Key, start: int)
    requires Inv(s, up) && Legal(s, steps, up) && WrittenSince(s, 0, start) && k !in s.started
    requires NoFailure(s, steps, up, k) && Substantial(up, k) && Exec(s, steps, up).now - start < TTL(k)
    ensures Requests(s, steps, up, k) == if k in Exec(s, steps, up).started then 1 + Repeats(s, steps, up, k) else 0
    decreases |steps|
  {
    if steps != [] {
      var step, t := steps[0], Apply(s, steps[0], up);
      StepInv(s, step, up);
      WrittenSinceStep(s, step, up, 0, start);
      if Starts(s, step, k) {
        StartCovers(s, step, up, k);
        CoveredRepeats(t, steps[1..], up, k, start);
      } else {
        OthersStartOther(s, step, up, k);
        FirstThenRepeats(t, steps[1..], up, k, start);
      }
    }
  }

  lemma {:induction false} StaysStarted(s: State, steps: seq<Step>, up: Upstream, k: Key)
    requires Legal(s, steps, up) && k in s.started
    ensures k in Exec(s, steps, up).started
    decreases |steps|
  {
    if steps != [] { StaysStarted(Apply(s, steps[0], up), steps[1..], up, k); }
  }

  lemma {:induction false} NeedlessAtMost(s: State, steps: seq<Step>, up: Upstream, k: Key)
    requires Legal(s, steps, up)
    ensures Needless(s, steps, up, k) <= Requests(s, steps, up, k)
    decreases |steps|
  {
    if steps != [] { NeedlessAtMost(Apply(s, steps[0], up), steps[1..], up, k); }
  }

  /**
   However many callers miss a key together, while nothing expires and nothing fails: a missed key
   is requested exactly once exactly when no caller starts another request although the key was
   refreshed between its check and then.
   */
  lemma OneRequestIff(now: int, steps: seq<Step>, up: Upstream, k: Key)
    requires Legal(Init(now), steps, up) && k in Exec(Init(now), steps, up).started
    requires NoFailure(Init(now), steps, up, k) && Substantial(up, k)
    requires Exec(Init(now), steps, up).now - now < TTL(k)
    ensures Count(Exec(Init(now), steps, up).started, k) == 1 + Repeats(Init(now), steps, up, k)
    ensures Count(Exec(Init(now), steps, up).started, k) == 1 <==> Repeats(Init(now), steps, up, k) == 0
  {
    RequestsAreCounted(Init(now), steps, up, k);
    FirstThenRepeats(Init(now), steps, up, k, now);
  }
}
