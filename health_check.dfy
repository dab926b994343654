/** The cluster-health predicate: the verdict of `is_cluster_healthy` on a status
    document, its reference definition as a left fold over the document, the
    imperative traversal proved against it, and what the verdict means. */
module HealthCheck {
  import opened Wrappers
  import opened JsonTree

  /** The three ways `is_cluster_healthy` can end: True, False, or an exception
      it does not catch (an AttributeError on a node of the wrong type). */
  datatype Verdict = Healthy | Unhealthy | Fault

  /** What one unit entry does to the traversal. */
  datatype UnitCheck = Ready | NotReady | Malformed

  /** The state of the traversal after a prefix of the document: still going,
      with the number of units counted so far, or stopped with a verdict. */
  datatype Scan = Continue(units: nat) | Stop(verdict: Verdict)

  // ---------------------------------------------------------------------------
  // Reference definition, step by step as the source evaluates it
  // ---------------------------------------------------------------------------

  /** `unit.get(key, {}).get("current")`: the outer None is the AttributeError
      raised when the status entry is present but is not an object. */
  function Current(unit: Members, key: string): Option<Option<Json>> {
    match GetOr(unit, key, JObj([]))
    case JObj(status) => Some(Get(status, "current"))
    case _ => None
  }

  /** One iteration of the inner loop: both status lookups happen before the
      readiness test, so either lookup can fault first. */
  function CheckUnit(unit: Json): UnitCheck {
    if !unit.JObj? then Malformed
    else
      var workload := Current(unit.members, "workload-status");
      var agent := Current(unit.members, "juju-status");
      if workload.None? || agent.None? then Malformed
      else if workload.value == Some(JStr("active")) && agent.value == Some(JStr("idle")) then Ready
      else NotReady
  }

  /** The inner loop over `units.values()`, as a fold over the visited prefix;
      a running traversal has counted exactly the units it visited. */
  function ScanUnits(units: Members): (r: Scan)
    ensures r.Continue? ==> r.units == |units|
    ensures r != Stop(Healthy)
  {
    if units == [] then Continue(0)
    else
      match ScanUnits(units[..|units| - 1])
      case Stop(v) => Stop(v)
      case Continue(n) =>
        match CheckUnit(units[|units| - 1].1)
        case Ready => Continue(n + 1)
        case NotReady => Stop(Unhealthy)
        case Malformed => Stop(Fault)
  }

  /** One iteration of the outer loop: an application without a truthy `units`
      entry is skipped; otherwise its units are scanned. */
  function ScanApp(app: Json): (r: Scan)
    ensures r != Stop(Healthy)
  {
    if !app.JObj? then Stop(Fault)
    else
      match Get(app.members, "units")
      case None => Continue(0)
      case Some(units) =>
        if !Truthy(units) then Continue(0)
        else if !units.JObj? then Stop(Fault)
        else ScanUnits(units.members)
  }

  /** The outer loop over `apps.values()`, as a fold over the visited prefix. */
  function ScanApps(apps: Members): (r: Scan)
    ensures r != Stop(Healthy)
  {
    if apps == [] then Continue(0)
    else
      match ScanApps(apps[..|apps| - 1])
      case Stop(v) => Stop(v)
      case Continue(n) =>
        match ScanApp(apps[|apps| - 1].1)
        case Stop(v) => Stop(v)
        case Continue(m) => Continue(n + m)
  }

  /** The verdict of `is_cluster_healthy`; `decoded` is the result of json.loads,
      None standing for a JSONDecodeError. */
  function Evaluate(decoded: Option<Json>): Verdict {
    match decoded
    case None => Unhealthy
    case Some(status) =>
      if !status.JObj? then Fault
      else
        var apps := GetOr(status.members, "applications", JObj([]));
        if !Truthy(apps) then Unhealthy
        else if !apps.JObj? then Fault
        else
          match ScanApps(apps.members)
          case Stop(v) => v
          case Continue(n) => if n > 0 then Healthy else Unhealthy
  }

  // ---------------------------------------------------------------------------
  // The traversal as the source writes it
  // ---------------------------------------------------------------------------

  /** `is_cluster_healthy`: nested loops over applications and units with a unit
      counter and a fail-fast return. */
  method IsClusterHealthy(decoded: Option<Json>) returns (verdict: Verdict)
    ensures verdict == Evaluate(decoded)
  {
    if decoded.None? {
      return Unhealthy;
    }
    var status := decoded.value;
    if !status.JObj? {
      return Fault;
    }
    var apps := GetOr(status.members, "applications", JObj([]));
    if !Truthy(apps) {
      return Unhealthy;
    }
    if !apps.JObj? {
      return Fault;
    }
    var totalUnitsFound := 0;
    var i := 0;
    assert apps.members[..0] == [];
    while i < |apps.members|
      invariant i <= |apps.members|
      invariant ScanApps(apps.members[..i]) == Continue(totalUnitsFound)
    {
      var appData := apps.members[i].1;
      if !appData.JObj? {
        AppsStopAt(apps.members, i);
        return Fault;
      }
      var unitsEntry := Get(appData.members, "units");
      if unitsEntry.Some? && Truthy(unitsEntry.value) {
        var units := Index(appData.members, "units");
        if !units.JObj? {
          AppsStopAt(apps.members, i);
          return Fault;
        }
        ghost var before := totalUnitsFound;
        var stopped;
        totalUnitsFound, stopped := VisitUnits(units.members, totalUnitsFound);
        assert ScanApp(appData) == ScanUnits(units.members);
        if stopped.Some? {
          AppsStopAt(apps.members, i);
          return stopped.value;
        }
        AppPasses(apps.members, i);
        assert ScanApps(apps.members[..i + 1]) == Continue(before + |units.members|);
      } else {
        assert ScanApp(appData) == Continue(0);
        AppPasses(apps.members, i);
      }
      i := i + 1;
    }
    assert apps.members[..i] == apps.members;
    if totalUnitsFound > 0 {
      return Healthy;
    }
    return Unhealthy;
  }

  /** The inner loop of `is_cluster_healthy` over one application's units: it
      counts every unit it visits into the running total and stops at the first
      unit that is not ready (`return False`) or is of the wrong type (an
      AttributeError). */
  method VisitUnits(units: Members, totalBefore: nat) returns (total: nat, stopped: Option<Verdict>)
    ensures ScanUnits(units).Stop? <==> stopped.Some?
    ensures stopped.Some? ==> stopped.value == ScanUnits(units).verdict
    ensures stopped.None? ==> total == totalBefore + |units|
  {
    total := totalBefore;
    var j := 0;
    assert units[..0] == [];
    while j < |units|
      invariant j <= |units|
      invariant ScanUnits(units[..j]) == Continue(j)
      invariant total == totalBefore + j
    {
      total := total + 1;
      var unitData := units[j].1;
      ghost var check := CheckUnit(unitData);
      if !unitData.JObj? {
        UnitsStopAt(units, j);
        return total, Some(Fault);
      }
      var workloadEntry := GetOr(unitData.members, "workload-status", JObj([]));
      if !workloadEntry.JObj? {
        assert check == Malformed;
        UnitsStopAt(units, j);
        return total, Some(Fault);
      }
      var workloadStatus := Get(workloadEntry.members, "current");
      var agentEntry := GetOr(unitData.members, "juju-status", JObj([]));
      if !agentEntry.JObj? {
        assert check == Malformed;
        UnitsStopAt(units, j);
        return total, Some(Fault);
      }
      var agentStatus := Get(agentEntry.members, "current");
      if !(workloadStatus == Some(JStr("active")) && agentStatus == Some(JStr("idle"))) {
        assert check == NotReady;
        UnitsStopAt(units, j);
        return total, Some(Unhealthy);
      }
      assert check == Ready;
      UnitPasses(units, j);
      j := j + 1;
    }
    assert units[..j] == units;
    stopped := None;
  }

  /** One more ready unit extends a running unit scan by one. */
  lemma UnitPasses(units: Members, j: nat)
    requires j < |units|
    requires ScanUnits(units[..j]).Continue?
    requires CheckUnit(units[j].1) == Ready
    ensures ScanUnits(units[..j + 1]) == Continue(ScanUnits(units[..j]).units + 1)
  {
    assert units[..j + 1][..j] == units[..j];
  }

  /** One more application that does not stop extends a running scan by its units. */
  lemma AppPasses(apps: Members, i: nat)
    requires i < |apps|
    requires ScanApps(apps[..i]).Continue?
    requires ScanApp(apps[i].1).Continue?
    ensures ScanApps(apps[..i + 1]) == Continue(ScanApps(apps[..i]).units + ScanApp(apps[i].1).units)
  {
    assert apps[..i + 1][..i] == apps[..i];
  }

  // ---------------------------------------------------------------------------
  // Fail-fast: once the traversal stops, the rest of the document is not read
  // ---------------------------------------------------------------------------

  lemma {:induction false} UnitsStopPersists(units: Members, k: nat)
    requires k <= |units|
    requires ScanUnits(units[..k]).Stop?
    ensures ScanUnits(units) == ScanUnits(units[..k])
    decreases |units|
  {
    if k < |units| {
      var init := units[..|units| - 1];
      assert init[..k] == units[..k];
      UnitsStopPersists(init, k);
    } else {
      assert units[..k] == units;
    }
  }

  lemma {:induction false} AppsStopPersists(apps: Members, k: nat)
    requires k <= |apps|
    requires ScanApps(apps[..k]).Stop?
    ensures ScanApps(apps) == ScanApps(apps[..k])
    decreases |apps|
  {
    if k < |apps| {
      var init := apps[..|apps| - 1];
      assert init[..k] == apps[..k];
      AppsStopPersists(init, k);
    } else {
      assert apps[..k] == apps;
    }
  }

  /** A unit that is not ready, reached while the inner loop is still running,
      decides the scan of all the application's units. */
  lemma UnitsStopAt(units: Members, j: nat)
    requires j < |units|
    requires ScanUnits(units[..j]).Continue?
    requires CheckUnit(units[j].1) != Ready
    ensures ScanUnits(units) == Stop(if CheckUnit(units[j].1) == Malformed then Fault else Unhealthy)
  {
    assert units[..j + 1][..j] == units[..j];
    UnitsStopPersists(units, j + 1);
  }

  /** An application whose scan stops, reached while the outer loop is still
      running, decides the scan of the whole document. */
  lemma AppsStopAt(apps: Members, i: nat)
    requires i < |apps|
    requires ScanApps(apps[..i]).Continue?
    requires ScanApp(apps[i].1).Stop?
    ensures ScanApps(apps) == ScanApp(apps[i].1)
  {
    assert apps[..i + 1][..i] == apps[..i];
    AppsStopPersists(apps, i + 1);
  }

  // ---------------------------------------------------------------------------
  // What the verdict means: the document's shape and its units
  // ---------------------------------------------------------------------------

  /** A status entry (`workload-status` or `juju-status`) that, if present, is an object. */
  predicate StatusWellTyped(entry: Option<Json>) {
    entry.None? || entry.value.JObj?
  }

  /** A unit entry on which both status lookups succeed. */
  predicate UnitWellTyped(unit: Json) {
    unit.JObj?
    && StatusWellTyped(Get(unit.members, "workload-status"))
    && StatusWellTyped(Get(unit.members, "juju-status"))
  }

  /** The readiness rule: workload `active` and agent `idle`; a missing status
      or a missing `current` is not ready. */
  predicate UnitReady(unit: Json) {
    At(unit, ["workload-status", "current"]) == Some(JStr("active"))
    && At(unit, ["juju-status", "current"]) == Some(JStr("idle"))
  }

  /** The units of an application: the members of its `units` object, none if
      the entry is absent or not an object. */
  function AppUnits(app: Json): Members {
    if app.JObj? && Get(app.members, "units").Some? && Get(app.members, "units").value.JObj?
    then Get(app.members, "units").value.members
    else []
  }

  /** An application entry the traversal can read without an AttributeError. */
  predicate AppWellTyped(app: Json) {
    app.JObj?
    && match Get(app.members, "units")
       case None => true
       case Some(units) =>
         !Truthy(units) || (units.JObj? && forall u :: u in units.members ==> UnitWellTyped(u.1))
  }

  predicate AppReady(app: Json) {
    forall u :: u in AppUnits(app) ==> UnitReady(u.1)
  }

  /** The number of units of a list of applications. */
  function UnitCount(apps: Members): nat {
    if apps == [] then 0
    else UnitCount(apps[..|apps| - 1]) + |AppUnits(apps[|apps| - 1].1)|
  }

  /** The applications of a status document: the members of its `applications`
      object, none if the entry is absent or not an object. */
  function Apps(root: Json): Members {
    if root.JObj? && Get(root.members, "applications").Some? && Get(root.members, "applications").value.JObj?
    then Get(root.members, "applications").value.members
    else []
  }

  /** A status document the traversal can read without an AttributeError. */
  predicate WellTyped(root: Json) {
    root.JObj?
    && var apps := GetOr(root.members, "applications", JObj([]));
       !Truthy(apps) || (apps.JObj? && forall a :: a in apps.members ==> AppWellTyped(a.1))
  }

  /** Every unit entry of the document, across all applications. */
  function UnitsOf(root: Json): set<Json> {
    set a, u | a in Apps(root) && u in AppUnits(a.1) :: u.1
  }

  predicate HasUnit(root: Json) {
    UnitsOf(root) != {}
  }

  predicate AllReady(root: Json) {
    forall u :: u in UnitsOf(root) ==> UnitReady(u)
  }

  /** A unit check is malformed exactly on a wrong-typed unit, and ready exactly
      on a well-typed unit that satisfies the readiness rule. */
  lemma CheckUnitMeaning(unit: Json)
    ensures CheckUnit(unit) == Malformed <==> !UnitWellTyped(unit)
    ensures CheckUnit(unit) == Ready <==> UnitWellTyped(unit) && UnitReady(unit)
  {
    if unit.JObj? {
      CurrentMeaning(unit.members, "workload-status");
      CurrentMeaning(unit.members, "juju-status");
    }
  }

  /** A status lookup that does not fault finds what the path lookup finds. */
  lemma CurrentMeaning(unit: Members, key: string)
    ensures Current(unit, key).Some? <==> StatusWellTyped(Get(unit, key))
    ensures Current(unit, key).Some? ==> Current(unit, key).value == At(JObj(unit), [key, "current"])
  {
    var path := [key, "current"];
    assert path[0] == key && path[1..] == ["current"];
    assert ["current"][0] == "current" && ["current"][1..] == [];
    match Get(unit, key)
    case None =>
      assert At(JObj(unit), path) == None;
      assert Get([], "current") == None;
    case Some(status) =>
      assert At(JObj(unit), path) == At(status, ["current"]);
      if status.JObj? {
        match Get(status.members, "current")
        case None =>
        case Some(v) =>
          assert At(status, ["current"]) == At(v, []);
      }
  }

  /** The unit scan runs to the end iff every unit is well typed and ready, and
      it never faults on well-typed units. */
  lemma {:induction false} ScanUnitsMeaning(units: Members)
    ensures ScanUnits(units).Continue? <==> forall u :: u in units ==> UnitWellTyped(u.1) && UnitReady(u.1)
    ensures (forall u :: u in units ==> UnitWellTyped(u.1)) ==> ScanUnits(units) != Stop(Fault)
  {
    if units != [] {
      var init, last := units[..|units| - 1], units[|units| - 1];
      assert units == init + [last];
      ScanUnitsMeaning(init);
      CheckUnitMeaning(last.1);
    }
  }

  /** The scan of one application runs to the end iff the application is well
      typed and all its units are ready, and it never faults on a well-typed one. */
  lemma ScanAppMeaning(app: Json)
    ensures ScanApp(app).Continue? <==> AppWellTyped(app) && AppReady(app)
    ensures AppWellTyped(app) ==> ScanApp(app) != Stop(Fault)
  {
    if app.JObj? {
      match Get(app.members, "units")
      case None =>
      case Some(units) =>
        if units.JObj? {
          ScanUnitsMeaning(units.members);
        }
    }
  }

  /** The whole traversal runs to the end iff every application is well typed
      and every unit is ready, and it never faults on well-typed applications. */
  lemma {:induction false} ScanAppsMeaning(apps: Members)
    ensures ScanApps(apps).Continue? <==> forall a :: a in apps ==> AppWellTyped(a.1) && AppReady(a.1)
    ensures (forall a :: a in apps ==> AppWellTyped(a.1)) ==> ScanApps(apps) != Stop(Fault)
  {
    if apps != [] {
      var init, last := apps[..|apps| - 1], apps[|apps| - 1];
      assert apps == init + [last];
      ScanAppsMeaning(init);
      ScanAppMeaning(last.1);
    }
  }

  /** An application that does not stop the traversal adds exactly its units. */
  lemma ScanAppCount(app: Json)
    ensures ScanApp(app).Continue? ==> ScanApp(app).units == |AppUnits(app)|
  {
  }

  /** While no early return has happened, the traversal has counted every unit
      of every application visited. */
  lemma {:induction false} ScanAppsCount(apps: Members)
    ensures ScanApps(apps).Continue? ==> ScanApps(apps).units == UnitCount(apps)
  {
    if apps != [] {
      ScanAppsCount(apps[..|apps| - 1]);
      ScanAppCount(apps[|apps| - 1].1);
    }
  }

  /** The counted total is positive iff some application has a unit. */
  lemma {:induction false} UnitCountPositive(apps: Members)
    ensures UnitCount(apps) > 0 <==> exists a :: a in apps && AppUnits(a.1) != []
  {
    if apps != [] {
      var init, last := apps[..|apps| - 1], apps[|apps| - 1];
      assert apps == init + [last];
      UnitCountPositive(init);
    }
  }

  /** The readiness facts per application say the same as readiness over the
      set of all units. */
  lemma UnitsOfMeaning(root: Json)
    ensures HasUnit(root) <==> exists a :: a in Apps(root) && AppUnits(a.1) != []
    ensures AllReady(root) <==> forall a :: a in Apps(root) ==> AppReady(a.1)
  {
    if exists a :: a in Apps(root) && AppUnits(a.1) != [] {
      var a :| a in Apps(root) && AppUnits(a.1) != [];
      var u := AppUnits(a.1)[0];
      assert u in AppUnits(a.1);
      assert u.1 in UnitsOf(root);
    }
    if forall a :: a in Apps(root) ==> AppReady(a.1) {
      forall x | x in UnitsOf(root) ensures UnitReady(x) {
        var a, u :| a in Apps(root) && u in AppUnits(a.1) && u.1 == x;
      }
    }
  }

  // ---------------------------------------------------------------------------
  // Properties of the verdict
  // ---------------------------------------------------------------------------

  /** A document that fails to decode is unhealthy, never a fault. */
  lemma DecodeErrorIsUnhealthy()
    ensures Evaluate(None) == Unhealthy
  {
  }

  /** A document whose `applications` entry is absent or falsy is unhealthy. */
  lemma NoApplicationsIsUnhealthy(root: Members)
    requires !Truthy(GetOr(root, "applications", JObj([])))
    ensures Evaluate(Some(JObj(root))) == Unhealthy
  {
  }

  /** Healthy exactly when the document is well typed, has at least one unit,
      and every unit is ready. */
  lemma HealthyIff(root: Json)
    ensures Evaluate(Some(root)) == Healthy <==> WellTyped(root) && HasUnit(root) && AllReady(root)
  {
    UnitsOfMeaning(root);
    if root.JObj? {
      var apps := GetOr(root.members, "applications", JObj([]));
      if Truthy(apps) && apps.JObj? {
        assert Apps(root) == apps.members;
        ScanAppsMeaning(apps.members);
        ScanAppsCount(apps.members);
        UnitCountPositive(apps.members);
      } else {
        assert Apps(root) == [];
      }
    }
  }

  /** On a well-typed document the result is a boolean verdict, never a fault. */
  lemma WellTypedNeverFaults(root: Json)
    requires WellTyped(root)
    ensures Evaluate(Some(root)) != Fault
  {
    var apps := GetOr(root.members, "applications", JObj([]));
    if Truthy(apps) {
      ScanAppsMeaning(apps.members);
    }
  }

  /** On a well-typed document a single unit that is not ready condemns the
      verdict, whatever the other units are. */
  lemma UnreadyUnitCondemns(root: Json, app: (string, Json), unit: (string, Json))
    requires WellTyped(root)
    requires app in Apps(root) && unit in AppUnits(app.1)
    requires !UnitReady(unit.1)
    ensures Evaluate(Some(root)) == Unhealthy
  {
    assert unit.1 in UnitsOf(root);
    HealthyIff(root);
    WellTypedNeverFaults(root);
  }

  /** On well-typed documents the verdict depends only on the set of unit entries:
      not on the order of applications or units, nor on how units are grouped. */
  lemma VerdictDependsOnlyOnUnits(root1: Json, root2: Json)
    requires WellTyped(root1) && WellTyped(root2)
    requires UnitsOf(root1) == UnitsOf(root2)
    ensures Evaluate(Some(root1)) == Evaluate(Some(root2))
  {
    HealthyIff(root1);
    HealthyIff(root2);
    WellTypedNeverFaults(root1);
    WellTypedNeverFaults(root2);
  }

  /** A status document whose `applications` object is apps, standing after the
      members pre (none of which is `applications`) and before the members post. */
  function StatusDoc(pre: Members, apps: Members, post: Members): Json {
    JObj(pre + [("applications", JObj(apps))] + post)
  }

  /** Reordering the applications of a well-typed document keeps it well typed
      and keeps its verdict. */
  lemma AppOrderIrrelevant(pre: Members, post: Members, apps1: Members, apps2: Members)
    requires forall m :: m in pre ==> m.0 != "applications"
    requires multiset(apps1) == multiset(apps2)
    requires WellTyped(StatusDoc(pre, apps1, post))
    ensures WellTyped(StatusDoc(pre, apps2, post))
    ensures Evaluate(Some(StatusDoc(pre, apps1, post))) == Evaluate(Some(StatusDoc(pre, apps2, post)))
  {
    var root1 := StatusDoc(pre, apps1, post);
    var root2 := StatusDoc(pre, apps2, post);
    GetPastAbsent(pre, "applications", JObj(apps1), post);
    GetPastAbsent(pre, "applications", JObj(apps2), post);
    forall a ensures a in apps1 <==> a in apps2 {
      assert a in apps1 <==> a in multiset(apps1);
      assert a in apps2 <==> a in multiset(apps2);
    }
    assert |apps1| == |multiset(apps1)| == |multiset(apps2)| == |apps2|;
    assert Apps(root1) == apps1 && Apps(root2) == apps2;
    assert UnitsOf(root1) == UnitsOf(root2);
    VerdictDependsOnlyOnUnits(root1, root2);
  }

  /** An application whose `units` entry is absent or falsy adds nothing to the
      traversal, wherever it stands. */
  lemma {:induction false} SkippedAppScan(apps1: Members, apps2: Members, app: (string, Json))
    requires app.1.JObj?
    requires Get(app.1.members, "units").None? || !Truthy(Get(app.1.members, "units").value)
    ensures ScanApps(apps1 + [app] + apps2) == ScanApps(apps1 + apps2)
    decreases |apps2|
  {
    assert ScanApp(app.1) == Continue(0);
    if apps2 == [] {
      assert apps1 + [app] + apps2 == apps1 + [app];
      assert apps1 + apps2 == apps1;
      ScanAppsSnoc(apps1, app);
    } else {
      var init, last := apps2[..|apps2| - 1], apps2[|apps2| - 1];
      assert apps1 + [app] + apps2 == (apps1 + [app] + init) + [last];
      assert apps1 + apps2 == (apps1 + init) + [last];
      ScanAppsSnoc(apps1 + [app] + init, last);
      ScanAppsSnoc(apps1 + init, last);
      SkippedAppScan(apps1, init, app);
    }
  }

  /** The scan of a list of applications extended by one more. */
  lemma ScanAppsSnoc(init: Members, last: (string, Json))
    ensures ScanApps(init + [last])
         == match ScanApps(init)
            case Stop(v) => Stop(v)
            case Continue(n) =>
              match ScanApp(last.1)
              case Stop(v) => Stop(v)
              case Continue(m) => Continue(n + m)
  {
    assert (init + [last])[..|init|] == init;
  }

  /** Inserting an application without units into a document changes neither
      the unit count nor the verdict. */
  lemma AppWithoutUnitsIsSkipped(pre: Members, post: Members, apps1: Members, apps2: Members, app: (string, Json))
    requires forall m :: m in pre ==> m.0 != "applications"
    requires app.1.JObj?
    requires Get(app.1.members, "units").None? || !Truthy(Get(app.1.members, "units").value)
    ensures Evaluate(Some(StatusDoc(pre, apps1 + [app] + apps2, post)))
         == Evaluate(Some(StatusDoc(pre, apps1 + apps2, post)))
  {
    SkippedAppScan(apps1, apps2, app);
    GetPastAbsent(pre, "applications", JObj(apps1 + [app] + apps2), post);
    GetPastAbsent(pre, "applications", JObj(apps1 + apps2), post);
    EvaluateApps(StatusDoc(pre, apps1 + [app] + apps2, post), apps1 + [app] + apps2);
    EvaluateApps(StatusDoc(pre, apps1 + apps2, post), apps1 + apps2);
    if apps1 + apps2 == [] {
      assert apps1 + [app] + apps2 == [app];
    }
  }

  /** The verdict of a document whose `applications` entry is the object apps. */
  lemma EvaluateApps(root: Json, apps: Members)
    requires root.JObj? && Get(root.members, "applications") == Some(JObj(apps))
    ensures Evaluate(Some(root))
         == if apps == [] then Unhealthy
            else match ScanApps(apps)
                 case Stop(v) => v
                 case Continue(n) => if n > 0 then Healthy else Unhealthy
  {
  }

  /** A wrong-typed application entry that the traversal reaches is a fault. */
  lemma FaultOnMalformedApp(root: Json, apps: Members, i: nat)
    requires root.JObj? && Get(root.members, "applications") == Some(JObj(apps))
    requires i < |apps|
    requires forall k :: 0 <= k < i ==> AppWellTyped(apps[k].1) && AppReady(apps[k].1)
    requires !apps[i].1.JObj?
    ensures Evaluate(Some(root)) == Fault
  {
    ScanAppsMeaning(apps[..i]);
    AppsStopAt(apps, i);
    EvaluateApps(root, apps);
  }

  /** An application whose `units` entry is truthy but not an object, reached by
      the traversal, is a fault: `.values()` does not exist on it. */
  lemma FaultOnMalformedUnits(root: Json, apps: Members, i: nat, app: Members)
    requires root.JObj? && Get(root.members, "applications") == Some(JObj(apps))
    requires i < |apps| && apps[i].1 == JObj(app)
    requires forall k :: 0 <= k < i ==> AppWellTyped(apps[k].1) && AppReady(apps[k].1)
    requires Get(app, "units").Some? && Truthy(Get(app, "units").value) && !Get(app, "units").value.JObj?
    ensures Evaluate(Some(root)) == Fault
  {
    assert ScanApp(apps[i].1) == Stop(Fault);
    ScanAppsMeaning(apps[..i]);
    AppsStopAt(apps, i);
    EvaluateApps(root, apps);
  }

  /** A wrong-typed unit entry (not an object, or with a status entry that is not
      an object) that the traversal reaches is a fault. */
  lemma FaultOnMalformedUnit(root: Json, apps: Members, i: nat, app: Members, units: Members, j: nat)
    requires root.JObj? && Get(root.members, "applications") == Some(JObj(apps))
    requires i < |apps| && apps[i].1 == JObj(app)
    requires forall k :: 0 <= k < i ==> AppWellTyped(apps[k].1) && AppReady(apps[k].1)
    requires Get(app, "units") == Some(JObj(units))
    requires j < |units|
    requires forall k :: 0 <= k < j ==> UnitWellTyped(units[k].1) && UnitReady(units[k].1)
    requires !UnitWellTyped(units[j].1)
    ensures Evaluate(Some(root)) == Fault
  {
    ScanUnitsMeaning(units[..j]);
    CheckUnitMeaning(units[j].1);
    UnitsStopAt(units, j);
    assert ScanApp(apps[i].1) == Stop(Fault);
    ScanAppsMeaning(apps[..i]);
    AppsStopAt(apps, i);
    EvaluateApps(root, apps);
  }

  /** A root that is not an object, or an `applications` entry that is truthy
      but not an object, is a fault. */
  lemma FaultOnMalformedTop(root: Json)
    ensures !root.JObj? ==> Evaluate(Some(root)) == Fault
    ensures root.JObj? && Truthy(GetOr(root.members, "applications", JObj([])))
              && !GetOr(root.members, "applications", JObj([])).JObj?
            ==> Evaluate(Some(root)) == Fault
  {
  }

  /** On a wrong-typed document the order of applications can matter: the same
      two applications give a fault in one order and Unhealthy in the other. */
  lemma OrderMattersOnMalformedInput()
    ensures Evaluate(Some(JObj([("applications", JObj([("a", JArr([])), ("b", JObj([("units", JObj([("b/0", JObj([]))]))]))]))])))
         == Fault
    ensures Evaluate(Some(JObj([("applications", JObj([("b", JObj([("units", JObj([("b/0", JObj([]))]))])), ("a", JArr([]))]))])))
         == Unhealthy
  {
    var listApp: (string, Json) := ("a", JArr([]));
    var unit: (string, Json) := ("b/0", JObj([]));
    var idleApp: (string, Json) := ("b", JObj([("units", JObj([unit]))]));
    assert ScanApps([listApp]) == Stop(Fault) by {
      assert [listApp][..0] == [];
    }
    assert [listApp, idleApp][..1] == [listApp];
    assert ScanApps([listApp, idleApp]) == Stop(Fault);
    assert Get([("applications", JObj([listApp, idleApp]))], "applications") == Some(JObj([listApp, idleApp]));

    assert CheckUnit(unit.1) == NotReady;
    assert ScanUnits([unit]) == Stop(Unhealthy) by {
      assert [unit][..0] == [];
    }
    assert ScanApp(idleApp.1) == Stop(Unhealthy);
    assert ScanApps([idleApp]) == Stop(Unhealthy) by {
      assert [idleApp][..0] == [];
    }
    assert [idleApp, listApp][..1] == [idleApp];
    assert ScanApps([idleApp, listApp]) == Stop(Unhealthy);
    assert Get([("applications", JObj([idleApp, listApp]))], "applications") == Some(JObj([idleApp, listApp]));
  }
}
