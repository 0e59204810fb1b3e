/** The report of modpack.Analyze over an installed build. */
module Analysis {
  import opened Modpack
  import opened Options
  import opened Planner
  import opened Text

  datatype ModInstall = ModInstall(modID: string, name: string, version: string, managed: bool,
                                   dependencies: seq<string>)

  datatype Status = UpToDate | UpdateAvailable | NotUpdatable | Unknown

  datatype Reason = NoReason | LocalMod | NotInCatalog | CatalogError

  datatype ModUpdate = ModUpdate(modID: string, name: string, installedVersion: string, targetVersionID: string,
                                 targetVersion: string, status: Status, reason: Reason, changelog: string,
                                 compatible: bool, prerelease: bool,
                                 addedDeps: seq<Dependency>, removedDeps: seq<Dependency>)

  datatype Summary = Summary(totalMods: nat, upToDate: nat, updatesAvailable: nat, notUpdatableLocal: nat,
                             notUpdatableAbsent: nat, notUpdatableCatalogError: nat, incompatible: nat)

  /** What the catalog answers: an error, or metadata that is empty for an unknown mod. */
  datatype Answer = Failed | Found(info: ModInfo)

  // ----- helpers of one entry -----

  predicate SupportsGameVersion(supported: seq<string>, requested: string) {
    supported == [] || exists i :: 0 <= i < |supported| && SupportsSeries(supported[i], requested)
  }

  predicate SupportsSeries(v: string, requested: string) {
    var p := Split(TrimSpace(v), '.');
    v == requested || (|p| >= 2 && p[0] + "." + p[1] + "." <= requested)
  }

  predicate IsBuiltIn(id: string) { ToLower(TrimSpace(id)) in {"game", "survival", "creative"} }

  function AddedDeps(declared: seq<string>, target: seq<Dependency>, installed: set<string>): seq<Dependency> {
    if target == [] then []
    else
      var d := target[|target| - 1];
      AddedDeps(declared, target[..|target| - 1], installed) +
      if !IsBuiltIn(d.modID) && d.modID !in installed && d.modID !in declared then [d] else []
  }

  function RemovedDeps(declared: seq<string>, target: seq<Dependency>, installed: set<string>): seq<Dependency> {
    if declared == [] then []
    else
      var id := declared[|declared| - 1];
      RemovedDeps(declared[..|declared| - 1], target, installed) +
      if !IsBuiltIn(id) && (forall i :: 0 <= i < |target| ==> target[i].modID != id) && id in installed
      then [Dependency(id, "", "")] else []
  }

  /** The three built-in dependencies, in any case and with any space around them. */
  lemma BuiltInNames(id: string)
    ensures IsBuiltIn(id) <==> exists b :: b in ["game", "survival", "creative"] && EqualFold(TrimSpace(id), b)
  {
    LowerNames();
    var names := ["game", "survival", "creative"];
    assert names[0] in names && names[1] in names && names[2] in names;
  }

  lemma LowerNames()
    ensures ToLower("game") == "game" && ToLower("survival") == "survival" && ToLower("creative") == "creative"
  {
  }

  /** The difference is made dependency by dependency, in the order of the lists. */
  lemma {:induction false} AddedInOrder(declared: seq<string>, a: seq<Dependency>, b: seq<Dependency>,
                                       installed: set<string>)
    ensures AddedDeps(declared, a + b, installed) ==
            AddedDeps(declared, a, installed) + AddedDeps(declared, b, installed)
    ensures |AddedDeps(declared, a, installed)| <= |a|
  {
    if a != [] { AddedInOrder(declared, a[..|a| - 1], [], installed); }
    if b == [] {
      assert a + b == a;
    } else {
      assert (a + b)[..|a + b| - 1] == a + b[..|b| - 1];
      AddedInOrder(declared, a, b[..|b| - 1], installed);
    }
  }

  lemma {:induction false} RemovedInOrder(a: seq<string>, b: seq<string>, target: seq<Dependency>,
                                         installed: set<string>)
    ensures RemovedDeps(a + b, target, installed) ==
            RemovedDeps(a, target, installed) + RemovedDeps(b, target, installed)
    ensures |RemovedDeps(a, target, installed)| <= |a|
  {
    if a != [] { RemovedInOrder(a[..|a| - 1], [], target, installed); }
    if b == [] {
      assert a + b == a;
    } else {
      assert (a + b)[..|a + b| - 1] == a + b[..|b| - 1];
      RemovedInOrder(a, b[..|b| - 1], target, installed);
    }
  }

  /** Added dependencies are new to the build and the mod, removed ones are installed and no longer required. */
  lemma {:induction false} AddedExactly(declared: seq<string>, target: seq<Dependency>,
                                       installed: set<string>, d: Dependency)
    ensures d in AddedDeps(declared, target, installed) <==>
            && d in target && d.modID !in installed && d.modID !in declared
            && (forall b :: b in ["game", "survival", "creative"] ==> !EqualFold(TrimSpace(d.modID), b))
  {
    BuiltInNames(d.modID);
    if target != [] {
      AddedExactly(declared, target[..|target| - 1], installed, d);
      assert target == target[..|target| - 1] + [target[|target| - 1]];
    }
  }

  lemma {:induction false} RemovedExactly(declared: seq<string>, target: seq<Dependency>,
                                         installed: set<string>, d: Dependency)
    ensures d in RemovedDeps(declared, target, installed) <==>
            && d == Dependency(d.modID, "", "") && d.modID in declared && d.modID in installed
            && (forall b :: b in ["game", "survival", "creative"] ==> !EqualFold(TrimSpace(d.modID), b))
            && (forall i :: 0 <= i < |target| ==> target[i].modID != d.modID)
  {
    BuiltInNames(d.modID);
    if declared != [] {
      RemovedExactly(declared[..|declared| - 1], target, installed, d);
      assert declared == declared[..|declared| - 1] + [declared[|declared| - 1]];
    }
  }

  // ----- one entry -----

  function Start(m: ModInstall): ModUpdate {
    ModUpdate(m.modID, m.name, m.version, "", "", Unknown, NoReason, "", false, false, [], [])
  }

  /** What the report promises for one mod: each status and reason with exactly its cause. */
  ghost predicate Reported(r: ModUpdate, m: ModInstall, game: string, installed: set<string>, answer: Answer) {
    var local := !m.managed || m.modID == "";
    var listed := answer.Found? && answer.info.id != "";
    && r.modID == m.modID && r.name == m.name && r.installedVersion == m.version
    && (r.status.NotUpdatable? <==> local || !listed)
    && (r.reason == LocalMod <==> local)
    && (r.reason == CatalogError <==> !local && answer.Failed?)
    && (r.reason == NotInCatalog <==> !local && answer.Found? && answer.info.id == "")
    && (r.status.UpToDate? <==> !local && listed && SelectTarget(MODPACK, answer.info, m.version).None?)
    && (r.status.UpdateAvailable? <==> !local && listed && SelectTarget(MODPACK, answer.info, m.version).Some?)
    && if r.status.UpdateAvailable? && listed && SelectTarget(MODPACK, answer.info, m.version).Some? then
         var t := SelectTarget(MODPACK, answer.info, m.version).value;
         && r.targetVersionID == t.id && r.targetVersion == t.version && r.changelog == t.changelog
         && (r.compatible <==> SupportsGameVersion(t.gameVersions, game))
         && (r.prerelease <==> t.releaseType != "" && !EqualFold(t.releaseType, "stable"))
         && r.addedDeps == AddedDeps(m.dependencies, t.dependencies, installed)
         && r.removedDeps == RemovedDeps(m.dependencies, t.dependencies, installed)
       else
         && r.targetVersionID == "" && r.targetVersion == "" && r.changelog == "" && !r.compatible && !r.prerelease
         && r.addedDeps == [] && r.removedDeps == []
  }

  method AnalyzeMod(m: ModInstall, game: string, installed: set<string>, answer: Answer) returns (r: ModUpdate)
    ensures Reported(r, m, game, installed, answer)
  {
    r := Start(m);
    if !m.managed || m.modID == "" {
      r := r.(status := NotUpdatable, reason := LocalMod);
      return;
    }
    if answer.Failed? {
      r := r.(status := NotUpdatable, reason := CatalogError);
      return;
    }
    var info := answer.info;
    if info.id == "" {
      r := r.(status := NotUpdatable, reason := NotInCatalog);
      return;
    }
    var target := SelectTarget(MODPACK, info, m.version);
    if target.None? {
      r := r.(status := UpToDate);
      return;
    }
    var t := target.value;
    r := r.(status := UpdateAvailable);
    r := r.(targetVersionID := t.id, targetVersion := t.version, changelog := t.changelog);
    r := r.(compatible := SupportsGameVersion(t.gameVersions, game), prerelease := !IsStableRelease(t.releaseType));
    r := r.(addedDeps := AddedDeps(m.dependencies, t.dependencies, installed),
            removedDeps := RemovedDeps(m.dependencies, t.dependencies, installed));
  }

  // ----- the whole report -----

  predicate IsUpToDate(m: ModUpdate) { m.status.UpToDate? }
  predicate IsUpdate(m: ModUpdate) { m.status.UpdateAvailable? }
  predicate IsIncompatible(m: ModUpdate) { m.status.UpdateAvailable? && !m.compatible }
  predicate IsLocal(m: ModUpdate) { m.status.NotUpdatable? && m.reason.LocalMod? }
  predicate IsAbsent(m: ModUpdate) { m.status.NotUpdatable? && m.reason.NotInCatalog? }
  predicate IsCatalogError(m: ModUpdate) { m.status.NotUpdatable? && m.reason.CatalogError? }

  /** The entries that some counter of the summary counts. */
  predicate Classified(m: ModUpdate) { !m.status.Unknown? && (m.status.NotUpdatable? ==> !m.reason.NoReason?) }

  function Count(mods: seq<ModUpdate>, p: ModUpdate -> bool): nat {
    if mods == [] then 0 else Count(mods[..|mods| - 1], p) + if p(mods[|mods| - 1]) then 1 else 0
  }

  /** Summary counters as the source increments them. */
  method Summarize(mods: seq<ModUpdate>) returns (s: Summary)
    ensures s.totalMods == |mods|
    ensures s.upToDate == Count(mods, IsUpToDate)
    ensures s.updatesAvailable == Count(mods, IsUpdate)
    ensures s.incompatible == Count(mods, IsIncompatible)
    ensures s.notUpdatableLocal == Count(mods, IsLocal)
    ensures s.notUpdatableAbsent == Count(mods, IsAbsent)
    ensures s.notUpdatableCatalogError == Count(mods, IsCatalogError)
    ensures (forall i :: 0 <= i < |mods| ==> Classified(mods[i])) ==>
              s.totalMods == s.upToDate + s.updatesAvailable + s.notUpdatableLocal + s.notUpdatableAbsent +
                             s.notUpdatableCatalogError
  {
    s := Summary(|mods|, 0, 0, 0, 0, 0, 0);
    assert mods[..|mods|] == mods;
    for i := 0 to |mods|
      invariant s.totalMods == |mods|
      invariant s.upToDate == Count(mods[..i], IsUpToDate)
      invariant s.updatesAvailable == Count(mods[..i], IsUpdate)
      invariant s.incompatible == Count(mods[..i], IsIncompatible)
      invariant s.notUpdatableLocal == Count(mods[..i], IsLocal)
      invariant s.notUpdatableAbsent == Count(mods[..i], IsAbsent)
      invariant s.notUpdatableCatalogError == Count(mods[..i], IsCatalogError)
      invariant (forall j :: 0 <= j < i ==> Classified(mods[j])) ==>
                  i == s.upToDate + s.updatesAvailable + s.notUpdatableLocal + s.notUpdatableAbsent +
                       s.notUpdatableCatalogError
    {
      assert mods[..i + 1][..i] == mods[..i];
      match mods[i].status
      case UpToDate => s := s.(upToDate := s.upToDate + 1);
      case UpdateAvailable =>
        s := s.(updatesAvailable := s.updatesAvailable + 1);
        if !mods[i].compatible {
          s := s.(incompatible := s.incompatible + 1);
        }
      case NotUpdatable =>
        match mods[i].reason {
          case LocalMod => s := s.(notUpdatableLocal := s.notUpdatableLocal + 1);
          case NotInCatalog => s := s.(notUpdatableAbsent := s.notUpdatableAbsent + 1);
          case CatalogError => s := s.(notUpdatableCatalogError := s.notUpdatableCatalogError + 1);
          case NoReason =>
        }
      case Unknown =>
    }
  }

  function CountedAt(mods: seq<ModUpdate>, p: ModUpdate -> bool): set<nat> { set i | 0 <= i < |mods| && p(mods[i]) }

  lemma {:induction false} CountIsSize(mods: seq<ModUpdate>, p: ModUpdate -> bool)
    ensures Count(mods, p) == |CountedAt(mods, p)|
  {
    if mods != [] {
      var init, last := mods[..|mods| - 1], |mods| - 1;
      CountIsSize(init, p);
      assert forall i :: 0 <= i < |init| ==> init[i] == mods[i];
      assert CountedAt(mods, p) == CountedAt(init, p) + if p(mods[last]) then {last as nat} else {};
    }
  }

  /** What the counters of a summary count. */
  lemma SummaryCounts(mods: seq<ModUpdate>)
    ensures Count(mods, IsUpToDate) == |set i | 0 <= i < |mods| && mods[i].status == UpToDate|
    ensures Count(mods, IsUpdate) == |set i | 0 <= i < |mods| && mods[i].status == UpdateAvailable|
    ensures Count(mods, IsIncompatible) ==
            |set i | 0 <= i < |mods| && mods[i].status == UpdateAvailable && !mods[i].compatible|
    ensures Count(mods, IsLocal) ==
            |set i | 0 <= i < |mods| && mods[i].status == NotUpdatable && mods[i].reason == LocalMod|
    ensures Count(mods, IsAbsent) ==
            |set i | 0 <= i < |mods| && mods[i].status == NotUpdatable && mods[i].reason == NotInCatalog|
    ensures Count(mods, IsCatalogError) ==
            |set i | 0 <= i < |mods| && mods[i].status == NotUpdatable && mods[i].reason == CatalogError|
  {
    CountIsSize(mods, IsUpToDate);
    CountIsSize(mods, IsUpdate);
    CountIsSize(mods, IsIncompatible);
    CountIsSize(mods, IsLocal);
    CountIsSize(mods, IsAbsent);
    CountIsSize(mods, IsCatalogError);
    assert CountedAt(mods, IsUpToDate) == set i | 0 <= i < |mods| && mods[i].status == UpToDate;
    assert CountedAt(mods, IsUpdate) == set i | 0 <= i < |mods| && mods[i].status == UpdateAvailable;
    assert CountedAt(mods, IsIncompatible) ==
           set i | 0 <= i < |mods| && mods[i].status == UpdateAvailable && !mods[i].compatible;
    assert CountedAt(mods, IsLocal) ==
           set i | 0 <= i < |mods| && mods[i].status == NotUpdatable && mods[i].reason == LocalMod;
    assert CountedAt(mods, IsAbsent) ==
           set i | 0 <= i < |mods| && mods[i].status == NotUpdatable && mods[i].reason == NotInCatalog;
    assert CountedAt(mods, IsCatalogError) ==
           set i | 0 <= i < |mods| && mods[i].status == NotUpdatable && mods[i].reason == CatalogError;
  }

  datatype Report = Canceled | Report(mods: seq<ModUpdate>, summary: Summary)

  ghost predicate AllReported(updates: seq<ModUpdate>, mods: seq<ModInstall>, game: string,
                              installed: set<string>, answer: nat -> Answer)
  {
    |updates| <= |mods| &&
    forall i :: 0 <= i < |updates| ==> Reported(updates[i], mods[i], game, installed, answer(i))
  }

  lemma ReportedAppend(updates: seq<ModUpdate>, update: ModUpdate, mods: seq<ModInstall>, game: string,
                       installed: set<string>, answer: nat -> Answer)
    requires AllReported(updates, mods, game, installed, answer) && |updates| < |mods|
    requires Reported(update, mods[|updates|], game, installed, answer(|updates|))
    ensures AllReported(updates + [update], mods, game, installed, answer)
  {
  }

  lemma ReportedIsClassified(updates: seq<ModUpdate>, mods: seq<ModInstall>, game: string,
                             installed: set<string>, answer: nat -> Answer)
    requires AllReported(updates, mods, game, installed, answer)
    ensures forall i :: 0 <= i < |updates| ==> Classified(updates[i])
  {
    forall i | 0 <= i < |updates| ensures Classified(updates[i]) {
      assert Reported(updates[i], mods[i], game, installed, answer(i));
    }
  }

  /** `canceled(i)`: the context is done before entry `i`; `answer(i)`: what the catalog says for it. */
  method Analyze(game: string, mods: seq<ModInstall>, canceled: nat -> bool, answer: nat -> Answer)
    returns (report: Report)
    ensures report.Canceled? <==> exists i :: 0 <= i < |mods| && canceled(i)
    ensures report.Report? ==>
              var installed := set m | m in mods && m.modID != "" :: m.modID;
              && |report.mods| == |mods| && AllReported(report.mods, mods, game, installed, answer)
              && var s := report.summary;
                 s.totalMods == |mods| == s.upToDate + s.updatesAvailable + s.notUpdatableLocal +
                                          s.notUpdatableAbsent + s.notUpdatableCatalogError
  {
    var installed: set<string> := {};
    for i := 0 to |mods|
      invariant installed == set j | 0 <= j < i && mods[j].modID != "" :: mods[j].modID
    {
      if mods[i].modID != "" {
        installed := installed + {mods[i].modID};
      }
    }
    assert installed == set m | m in mods && m.modID != "" :: m.modID;
    var updates := [];
    for i := 0 to |mods|
      invariant |updates| == i
      invariant forall j :: 0 <= j < i ==> !canceled(j)
      invariant AllReported(updates, mods, game, installed, answer)
    {
      if canceled(i) {
        return Canceled;
      }
      var update := AnalyzeMod(mods[i], game, installed, answer(i));
      ReportedAppend(updates, update, mods, game, installed, answer);
      updates := updates + [update];
    }
    ReportedIsClassified(updates, mods, game, installed, answer);
    var summary := Summarize(updates);
    report := Report(updates, summary);
  }
}
