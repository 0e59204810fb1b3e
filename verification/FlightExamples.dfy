/** Two runs of the protocol that the documentation does not lead one to expect. */
module FlightExamples {
  import opened FlightRuns
  import opened Flights
  import opened ModdbModels
  import opened Options
  import opened SharedCache

  /** The two callers of the race: both miss, the second joins after the first flight completed. */
  function Race(k: Key): seq<Step> {
    [Check(0, k), Check(1, k), Join(0), Reply(0), WriteCache(0), Complete(0), Join(1)]
  }

  /** The states of the race for the full catalog. */
  function RaceState(mods: seq<Mod>, i: nat): State {
    var w := Write(Catalog, Listing(mods), 1, 1);
    var missed := Missed(Catalog, 1, 0, []);
    var joined := map[0 := Waiting(Catalog, 1, 0), 1 := missed];
    var s3 := Init(1).(callers := joined, group := map[Catalog := 0], started := [Catalog],
                       flights := map[0 := Flight(Catalog, [], 0, 0, Fetching)]);
    var s5 := s3.(flights := map[0 := Flight(Catalog, [], 0, 0, Written(w))], cache := map[Catalog := w], log := [w]);
    var s6 := s5.(flights := map[], group := map[], completed := [Catalog],
                  callers := map[0 := Ready(Catalog, 1, Fresh(w)), 1 := missed]);
    if i == 0 then Init(1)
    else if i == 1 then Init(1).(callers := map[0 := missed])
    else if i == 2 then Init(1).(callers := map[0 := missed, 1 := missed])
    else if i == 3 then s3
    else if i == 4 then s3.(flights := map[0 := Flight(Catalog, [], 0, 0, Replied(Listing(mods), 1))])
    else if i == 5 then s5
    else if i == 6 then s6
    else s6.(callers := map[0 := Ready(Catalog, 1, Fresh(w)), 1 := Waiting(Catalog, 1, 1)],
             group := map[Catalog := 1], flights := map[1 := Flight(Catalog, [], 1, 0, Fetching)],
             started := [Catalog, Catalog])
  }

  ghost predicate RaceStep(up: Upstream, mods: seq<Mod>, i: nat)
    requires i < 7
  {
    Enabled(RaceState(mods, i), Race(Catalog)[i], up) &&
    Apply(RaceState(mods, i), Race(Catalog)[i], up) == RaceState(mods, i + 1)
  }

  lemma RaceMisses(up: Upstream, mods: seq<Mod>)
    ensures RaceStep(up, mods, 0) && RaceStep(up, mods, 1) && RaceStep(up, mods, 2)
  {
  }

  lemma RaceFlight(up: Upstream, mods: seq<Mod>)
    requires up(1, Catalog) == Some(Listing(mods))
    ensures RaceStep(up, mods, 3) && RaceStep(up, mods, 4)
  {
  }

  lemma RaceSecond(up: Upstream, mods: seq<Mod>)
    ensures RaceStep(up, mods, 5) && RaceStep(up, mods, 6)
  {
  }

  /** Two callers that miss at the same time can cause two requests, with no failure and no expiry. */
  lemma MissCanRequestTwice(up: Upstream, mods: seq<Mod>)
    requires up(1, Catalog) == Some(Listing(mods)) && mods != []
    ensures Legal(Init(1), Race(Catalog), up)
    ensures var s := Exec(Init(1), Race(Catalog), up);
            s.started == [Catalog, Catalog] && Hit(Holds(s.cache, Catalog), Catalog, s.now)
  {
    RaceMisses(up, mods);
    RaceFlight(up, mods);
    RaceSecond(up, mods);
    forall i | 0 <= i < 7 ensures RaceStep(up, mods, i) {}
    Unfold(seq(8, i requires 0 <= i < 8 => RaceState(mods, i)), Race(Catalog), up);
  }

  lemma Chain(s: State, steps: seq<Step>, up: Upstream)
    requires steps != [] && Enabled(s, steps[0], up) && Legal(Apply(s, steps[0], up), steps[1..], up)
    ensures Legal(s, steps, up)
    ensures Exec(s, steps, up) == Exec(Apply(s, steps[0], up), steps[1..], up)
  {
  }

  lemma {:induction false} Unfold(ss: seq<State>, steps: seq<Step>, up: Upstream)
    requires |ss| == |steps| + 1
    requires forall i :: 0 <= i < |steps| ==> Enabled(ss[i], steps[i], up) && Apply(ss[i], steps[i], up) == ss[i + 1]
    ensures Legal(ss[0], steps, up) && Exec(ss[0], steps, up) == ss[|steps|]
    decreases |steps|
  {
    if steps != [] {
      assert forall i :: 0 <= i < |steps[1..]| ==> steps[1..][i] == steps[i + 1] && ss[1..][i] == ss[i + 1];
      Unfold(ss[1..], steps[1..], up);
      Chain(ss[0], steps, up);
    }
  }

  // ----- a slow delivery -----

  /** A caller that joins after the written data expired, while the flight has not yet delivered. */
  const LATE: seq<Step> := [Check(0, Catalog), Join(0), Reply(0), WriteCache(0), Tick(CATALOG_TTL), Check(1, Catalog),
                            Join(1), Complete(0), Receive(1)]

  function LateState(mods: seq<Mod>, i: nat): State {
    var w := Write(Catalog, Listing(mods), 1, 1);
    var s2 := Init(1).(callers := map[0 := Waiting(Catalog, 1, 0)], group := map[Catalog := 0], started := [Catalog],
                       flights := map[0 := Flight(Catalog, [], 0, 0, Fetching)]);
    var s5 := s2.(flights := map[0 := Flight(Catalog, [], 0, 0, Written(w))], cache := map[Catalog := w], log := [w],
                  now := 1 + CATALOG_TTL);
    var first, at := Waiting(Catalog, 1, 0), 1 + CATALOG_TTL;
    var delivered := s5.(flights := map[], group := map[], completed := [Catalog]);
    if i == 0 then Init(1)
    else if i == 1 then Init(1).(callers := map[0 := Missed(Catalog, 1, 0, [])])
    else if i == 2 then s2
    else if i == 3 then s2.(flights := map[0 := Flight(Catalog, [], 0, 0, Replied(Listing(mods), 1))])
    else if i == 4 then s5.(now := 1)
    else if i == 5 then s5
    else if i == 6 then s5.(callers := map[0 := first, 1 := Missed(Catalog, at, 1, mods)])
    else if i == 7 then s5.(callers := map[0 := first, 1 := Waiting(Catalog, at, 0)])
    else if i == 8 then
      delivered.(callers := map[0 := Ready(Catalog, 1, Fresh(w)), 1 := Ready(Catalog, at, Fresh(w))])
    else delivered.(callers := map[0 := Ready(Catalog, 1, Fresh(w)), 1 := Finished(Catalog, at, Fresh(w))])
  }

  ghost predicate LateStep(up: Upstream, mods: seq<Mod>, i: nat)
    requires i < 9
  {
    Enabled(LateState(mods, i), LATE[i], up) && Apply(LateState(mods, i), LATE[i], up) == LateState(mods, i + 1)
  }

  lemma LateFlight(up: Upstream, mods: seq<Mod>)
    requires up(1, Catalog) == Some(Listing(mods))
    ensures LateStep(up, mods, 0) && LateStep(up, mods, 1) && LateStep(up, mods, 2) && LateStep(up, mods, 3)
  {
  }

  lemma LateJoin(up: Upstream, mods: seq<Mod>)
    ensures LateStep(up, mods, 4) && LateStep(up, mods, 5) && LateStep(up, mods, 6)
  {
    assert LastWrite(LateState(mods, 5).log, 1, Catalog).Some?;
  }

  lemma LateComplete(up: Upstream, mods: seq<Mod>)
    ensures LateStep(up, mods, 7)
  {
  }

  lemma LateReceive(up: Upstream, mods: seq<Mod>)
    ensures LateStep(up, mods, 8)
  {
  }

  /** Without a bound on the delivery a caller can get, with no error, data older than the limit. */
  lemma SlowDeliveryIsNotFresh(up: Upstream, mods: seq<Mod>)
    requires up(1, Catalog) == Some(Listing(mods))
    ensures Legal(Init(1), LATE, up)
    ensures var s := Exec(Init(1), LATE, up);
            GotData(s, 1) && Expired(Catalog, s.callers[1].at, s.callers[1].outcome.write)
  {
    LateFlight(up, mods);
    LateJoin(up, mods);
    LateComplete(up, mods);
    LateReceive(up, mods);
    forall i | 0 <= i < 9 ensures LateStep(up, mods, i) {}
    Unfold(seq(10, i requires 0 <= i < 10 => LateState(mods, i)), LATE, up);
  }
}
