/** What the plan holds and in which order, through both stable sorts. */
module ReconcilePlan {
  import opened Prelude
  import opened ProbeConfig
  import opened StableSort
  import opened Reconciliation
  import Versions

  predicate NeedsDeploy(status: Status) {
    status in {Absent, Outdated, Drifted}
  }

  predicate CaWrong(desired: DesiredState, observed: ObservedState, expectedCa: Option<string>) {
    && desired.caRequired
    && (observed.caSha256.None? || (expectedCa.Some? && observed.caSha256 != expectedCa))
  }

  predicate NameWrong(desired: DesiredState, observed: ObservedState) {
    Truthy(desired.probeName) && Truthy(observed.probeName) && desired.probeName != observed.probeName
  }

  /** How many wanted entries of this name are not current. */
  function Needing(
      wanted: seq<DesiredSensor>, sensors: seq<InstalledSensor>, catalogue: Catalogue, tools: Tools,
      name: string): nat {
    if wanted == [] then 0
    else
      var last := wanted[|wanted| - 1];
      Needing(wanted[..|wanted| - 1], sensors, catalogue, tools, name)
      + if last.name == name && NeedsDeploy(WantedStatus(last, sensors, catalogue, tools)) then 1 else 0
  }

  /** How often the plan must hold this action. */
  function Due(
    action: Action, desired: DesiredState, observed: ObservedState, catalogue: Catalogue, tools: Tools, expectedCa: Option<string>): nat
  {
    if !observed.reachable then 0
    else match action
      case RestartService => if observed.service != Active then 1 else 0
      case InstallCa => if CaWrong(desired, observed, expectedCa) then 1 else 0
      case Configure => if NameWrong(desired, observed) then 1 else 0
      case DeploySensor(name) => Needing(desired.sensors, observed.sensors, catalogue, tools, name)
  }

  // --- Counting ------------------------------------------------------------

  /** How many of these findings ask for this action. */
  function Times(found: seq<Deviation>, action: Action): nat {
    if found == [] then 0 else (if ActionFor(found[0]) == [action] then 1 else 0) + Times(found[1..], action)
  }

  lemma {:induction false} TimesConcat(s: seq<Deviation>, t: seq<Deviation>, action: Action)
    ensures Times(s + t, action) == Times(s, action) + Times(t, action)
  {
    if s == [] {
      assert s + t == t;
    } else {
      assert (s + t)[1..] == s[1..] + t;
      TimesConcat(s[1..], t, action);
    }
  }

  lemma ActionCounted(d: Deviation, action: Action)
    ensures multiset(ActionFor(d))[action] == Times([d], action)
  {
  }

  lemma {:induction false} ActionsCounted(found: seq<Deviation>, action: Action)
    ensures multiset(Actions(found))[action] == Times(found, action)
  {
    if found != [] {
      var front, last := found[..|found| - 1], found[|found| - 1];
      ActionsCounted(front, action);
      TimesConcat(front, [last], action);
      ActionCounted(last, action);
      hide ActionFor, Times;
      assert found == front + [last];
      assert multiset(Actions(front) + ActionFor(last)) == multiset(Actions(front)) + multiset(ActionFor(last));
    }
  }

  lemma {:induction false} InsertTimes(x: Deviation, s: seq<Deviation>, action: Action)
    ensures Times(Insert(x, s, SeverityBefore), action) == Times([x], action) + Times(s, action)
  {
    if s == [] || !SeverityBefore(s[0], x) {
      TimesConcat([x], s, action);
    } else {
      InsertTimes(x, s[1..], action);
      TimesConcat([s[0]], Insert(x, s[1..], SeverityBefore), action);
      TimesConcat([s[0]], s[1..], action);
      assert s == [s[0]] + s[1..];
    }
  }

  lemma {:induction false} SortedTimes(s: seq<Deviation>, action: Action)
    ensures Times(Sorted(s, SeverityBefore), action) == Times(s, action)
  {
    if s != [] {
      SortedTimes(s[1..], action);
      InsertTimes(s[0], Sorted(s[1..], SeverityBefore), action);
      TimesConcat([s[0]], s[1..], action);
      assert s == [s[0]] + s[1..];
    }
  }

  // --- The findings, counted -----------------------------------------------

  /** How many of these rows need this sensor deployed. */
  function NeedingRows(rows: seq<Comparison>, name: string): nat {
    if rows == [] then 0
    else (if rows[0].name == name && NeedsDeploy(rows[0].status) then 1 else 0) + NeedingRows(rows[1..], name)
  }

  lemma {:induction false} NeedingConcat(s: seq<Comparison>, t: seq<Comparison>, name: string)
    ensures NeedingRows(s + t, name) == NeedingRows(s, name) + NeedingRows(t, name)
  {
    if s == [] {
      assert s + t == t;
    } else {
      assert (s + t)[1..] == s[1..] + t;
      NeedingConcat(s[1..], t, name);
    }
  }

  lemma {:induction false} InsertNeeding(x: Comparison, s: seq<Comparison>, name: string)
    ensures NeedingRows(Insert(x, s, NameBefore), name) == NeedingRows([x], name) + NeedingRows(s, name)
  {
    if s == [] || !NameBefore(s[0], x) {
      NeedingConcat([x], s, name);
    } else {
      InsertNeeding(x, s[1..], name);
      NeedingConcat([s[0]], Insert(x, s[1..], NameBefore), name);
      NeedingConcat([s[0]], s[1..], name);
      assert s == [s[0]] + s[1..];
    }
  }

  lemma {:induction false} SortedNeeding(s: seq<Comparison>, name: string)
    ensures NeedingRows(Sorted(s, NameBefore), name) == NeedingRows(s, name)
  {
    if s != [] {
      SortedNeeding(s[1..], name);
      InsertNeeding(s[0], Sorted(s[1..], NameBefore), name);
      NeedingConcat([s[0]], s[1..], name);
      assert s == [s[0]] + s[1..];
    }
  }

  lemma {:induction false} WantedNeeding(
      wanted: seq<DesiredSensor>, sensors: seq<InstalledSensor>, catalogue: Catalogue, tools: Tools, name: string)
    ensures NeedingRows(WantedRows(wanted, sensors, catalogue, tools), name) == Needing(wanted, sensors, catalogue, tools, name)
  {
    if wanted != [] {
      var front, last := wanted[..|wanted| - 1], wanted[|wanted| - 1];
      WantedNeeding(front, sensors, catalogue, tools, name);
      NeedingConcat(WantedRows(front, sensors, catalogue, tools), [Comparison(last.name, WantedStatus(last, sensors, catalogue, tools))], name);
    }
  }

  lemma {:induction false} UnmanagedNeeding(sensors: seq<InstalledSensor>, wanted: set<string>, name: string)
    ensures NeedingRows(UnmanagedRows(sensors, wanted), name) == 0
  {
    if sensors != [] {
      var front, last := sensors[..|sensors| - 1], sensors[|sensors| - 1];
      UnmanagedNeeding(front, wanted, name);
      NeedingConcat(UnmanagedRows(front, wanted), if last.name in wanted then [] else [Comparison(last.name, Status.Unmanaged)], name);
    }
  }

  lemma RowsNeeding(
      desired: DesiredState, sensors: seq<InstalledSensor>, catalogue: Catalogue, tools: Tools, name: string)
    ensures NeedingRows(CompareSensors(desired, sensors, catalogue, tools), name)
            == Needing(desired.sensors, sensors, catalogue, tools, name)
  {
    SortedNeeding(UnsortedRows(desired, sensors, catalogue, tools), name);
    NeedingConcat(WantedRows(desired.sensors, sensors, catalogue, tools), UnmanagedRows(sensors, Names(desired.sensors)), name);
    WantedNeeding(desired.sensors, sensors, catalogue, tools, name);
    UnmanagedNeeding(sensors, Names(desired.sensors), name);
  }

  lemma SensorTime(row: Comparison, action: Action)
    ensures Times(SensorDeviation(row), action) == if action.DeploySensor? then NeedingRows([row], action.sensor) else 0
  {
  }

  lemma {:induction false} SensorTimes(rows: seq<Comparison>, action: Action)
    ensures Times(SensorDeviations(rows), action) == if action.DeploySensor? then NeedingRows(rows, action.sensor) else 0
  {
    if rows != [] {
      var front, last := rows[..|rows| - 1], rows[|rows| - 1];
      SensorTimes(front, action);
      TimesConcat(SensorDeviations(front), SensorDeviation(last), action);
      SensorTime(last, action);
      if action.DeploySensor? {
        assert rows == front + [last];
        NeedingConcat(front, [last], action.sensor);
      }
    }
  }

  lemma QuietTime(row: InstalledSensor, needsInterface: set<string>, action: Action)
    ensures Times(QuietFailure(row, needsInterface), action) == 0
  {
    var interface := if row.name in needsInterface && row.interfaces == [] then [Deviation(InterfaceMissing, row.name)] else [];
    var helper := if row.helperState == Some("inactive") then [Deviation(HelperInactive, row.name)] else [];
    TimesConcat(interface, helper, action);
  }

  lemma {:induction false} QuietTimes(sensors: seq<InstalledSensor>, needsInterface: set<string>, action: Action)
    ensures Times(QuietFailures(sensors, needsInterface), action) == 0
  {
    if sensors != [] {
      var front, last := sensors[..|sensors| - 1], sensors[|sensors| - 1];
      QuietTimes(front, needsInterface, action);
      TimesConcat(QuietFailures(front, needsInterface), QuietFailure(last, needsInterface), action);
      QuietTime(last, needsInterface, action);
    }
  }

  lemma ProbeTimes(desired: DesiredState, observed: ObservedState, expectedCa: Option<string>, action: Action)
    requires observed.reachable
    ensures Times(ProbeDeviations(desired, observed, expectedCa), action)
            == match action
               case RestartService => if observed.service != Active then 1 else 0
               case InstallCa => if CaWrong(desired, observed, expectedCa) then 1 else 0
               case Configure => if NameWrong(desired, observed) then 1 else 0
               case DeploySensor(_) => 0
  {
    hide Times;
    var service, ca, name := ServiceFinding(observed), CaFinding(desired, observed, expectedCa), NameFinding(desired, observed);
    TimesConcat(service + ca, name, action);
    TimesConcat(service, ca, action);
    AtMostOne(service, action);
    AtMostOne(ca, action);
    AtMostOne(name, action);
  }

  lemma AtMostOne(found: seq<Deviation>, action: Action)
    requires |found| <= 1
    ensures Times(found, action) == if found != [] && ActionFor(found[0]) == [action] then 1 else 0
  {
  }

  /** Every action stands in the plan exactly as often as it is due: the probe's own at
      most once, and a deployment once for every wanted entry that is absent, outdated or
      drifted. */
  lemma PlanExactly(
    desired: DesiredState, observed: ObservedState, catalogue: Catalogue, tools: Tools, expectedCa: Option<string>, action: Action)
    ensures multiset(PlanFor(desired, observed, catalogue, tools, expectedCa))[action]
            == Due(action, desired, observed, catalogue, tools, expectedCa)
  {
    var found := FindDeviations(desired, observed, catalogue, tools, expectedCa);
    SortedKeeps(Actions(found), PriorityBefore);
    ActionsCounted(found, action);
    if observed.reachable {
      var rows := CompareSensors(desired, observed.sensors, catalogue, tools);
      var probe, sensors := ProbeDeviations(desired, observed, expectedCa), SensorDeviations(rows);
      SortedTimes(UnsortedDeviations(desired, observed, catalogue, tools, expectedCa), action);
      TimesConcat(probe + sensors, QuietFailures(observed.sensors, catalogue.needsInterface), action);
      TimesConcat(probe, sensors, action);
      ProbeTimes(desired, observed, expectedCa, action);
      SensorTimes(rows, action);
      QuietTimes(observed.sensors, catalogue.needsInterface, action);
      if action.DeploySensor? {
        RowsNeeding(desired, observed.sensors, catalogue, tools, action.sensor);
      }
    }
  }

  /** Restart before certificate, certificate before configuration, and deployments last. */
  lemma PlanInOrder(
      desired: DesiredState, observed: ObservedState, catalogue: Catalogue, tools: Tools, expectedCa: Option<string>)
    ensures Ordered(PlanFor(desired, observed, catalogue, tools, expectedCa), PriorityBefore)
    ensures var plan := PlanFor(desired, observed, catalogue, tools, expectedCa);
            forall i, j :: 0 <= i < j < |plan| ==>
              && (plan[j].RestartService? ==> plan[i].RestartService?)
              && (plan[j].InstallCa? ==> plan[i].RestartService? || plan[i].InstallCa?)
              && (plan[j].Configure? ==> !plan[i].DeploySensor?)
  {
    hide PlanFor;
    PlanIsOrdered(desired, observed, catalogue, tools, expectedCa);
    var plan := PlanFor(desired, observed, catalogue, tools, expectedCa);
    forall i, j | 0 <= i < j < |plan|
      ensures plan[j].RestartService? ==> plan[i].RestartService?
      ensures plan[j].InstallCa? ==> plan[i].RestartService? || plan[i].InstallCa?
      ensures plan[j].Configure? ==> !plan[i].DeploySensor?
    {
      assert !PriorityBefore(plan[j], plan[i]);
    }
  }

  lemma PlanIsOrdered(
      desired: DesiredState, observed: ObservedState, catalogue: Catalogue, tools: Tools, expectedCa: Option<string>)
    ensures Ordered(PlanFor(desired, observed, catalogue, tools, expectedCa), PriorityBefore)
  {
    SortedOrders(Actions(FindDeviations(desired, observed, catalogue, tools, expectedCa)), PriorityBefore);
  }

  // --- What a status means -------------------------------------------------

  /** Nothing is asked for, or exactly this is there. */
  predicate VersionFits(target: Option<string>, version: Option<string>) {
    target == None || target == Some("") || version == target
  }

  /** Where both sides name a digest they name the same. */
  predicate DigestFits(expected: Option<string>, found: Option<string>) {
    || expected in {None, Some("")}
    || found in {None, Some("")}
    || found == expected
  }

  /** The pin, and without one what the catalogue has. */
  ghost predicate IsTarget(w: DesiredSensor, c: Catalogue, target: Option<string>) {
    if w.version !in {None, Some("")} then target == w.version
    else if w.name in c.versions then target == Some(c.versions[w.name])
    else target == None
  }

  function Expected(m: map<string, string>, name: string): Option<string> {
    if name in m then Some(m[name]) else None
  }

  /** The first row of this name. */
  ghost predicate IsRow(sensors: seq<InstalledSensor>, name: string, row: InstalledSensor) {
    exists i :: 0 <= i < |sensors| && sensors[i] == row && row.name == name && forall j :: 0 <= j < i ==> sensors[j].name != name
  }

  /** The row carries the tool the catalogue expects, in every respect the tool checks. */
  predicate ToolFits(row: InstalledSensor, tool: ToolExpectation) {
    && tool.supported
    && row.toolName == Some(tool.name)
    && row.toolPlatform == Some(tool.platform)
    && row.toolSource == tool.source
    && row.toolPath == tool.path
    && row.toolCompatible == Some(true)
    && (if tool.source == Some("system") then Versions.AtLeast(row.toolVersion, tool.version) else row.toolVersion == Some(tool.version))
    && (tool.source == Some("managed") ==> row.toolSha256 == tool.sha256)
  }

  predicate ToolVersionFits(row: InstalledSensor, tool: ToolExpectation) {
    if tool.source == Some("system") then Versions.AtLeast(row.toolVersion, tool.version) else row.toolVersion == Some(tool.version)
  }

  /** It is the expected tool, of whatever version, and from where it is expected. */
  predicate ToolPlaced(row: InstalledSensor, tool: ToolExpectation) {
    && tool.supported
    && row.toolName == Some(tool.name)
    && row.toolPlatform == Some(tool.platform)
    && row.toolSource == tool.source
    && row.toolPath == tool.path
  }

  predicate ScriptsFit(w: DesiredSensor, c: Catalogue, row: InstalledSensor) {
    && DigestFits(Expected(c.checksums, w.name), row.sha256)
    && DigestFits(Expected(c.helperChecksums, w.name), row.helperSha256)
  }

  lemma {:induction false} RowIsFirst(sensors: seq<InstalledSensor>, name: string)
    ensures Row(sensors, name) == None <==> forall row :: row in sensors ==> row.name != name
    ensures Row(sensors, name).Some? ==> IsRow(sensors, name, Row(sensors, name).value)
  {
    if sensors != [] {
      var rest := sensors[1..];
      RowIsFirst(rest, name);
      assert sensors == [sensors[0]] + rest;
      if sensors[0].name != name && Row(rest, name).Some? {
        var row := Row(rest, name).value;
        var i :| 0 <= i < |rest| && rest[i] == row && forall j :: 0 <= j < i ==> rest[j].name != name;
        assert sensors[i + 1] == row;
        assert forall j :: 0 <= j < i + 1 ==> sensors[j].name != name;
      }
    }
  }

  /** The installed row, or none, is as the wish, the catalogue and the tools have it: it is
      there, its version is the target's, script and helper are unchanged, and so is the
      tool. */
  ghost predicate AsWanted(w: DesiredSensor, sensors: seq<InstalledSensor>, c: Catalogue, tools: Tools) {
    exists row, target ::
      && IsRow(sensors, w.name, row) && IsTarget(w, c, target)
      && VersionFits(target, row.version) && ScriptsFit(w, c, row)
      && (w.name in tools ==> ToolFits(row, tools[w.name]))
  }

  lemma OneRowOneTarget(w: DesiredSensor, sensors: seq<InstalledSensor>, c: Catalogue)
    ensures forall row :: IsRow(sensors, w.name, row) ==> Row(sensors, w.name) == Some(row)
    ensures forall target :: IsTarget(w, c, target) <==> Target(w, c) == target
  {
    RowIsFirst(sensors, w.name);
    forall row | IsRow(sensors, w.name, row) ensures Row(sensors, w.name) == Some(row) {
      var i :| 0 <= i < |sensors| && sensors[i] == row && forall j :: 0 <= j < i ==> sensors[j].name != w.name;
      var got := Row(sensors, w.name).value;
      var k :| 0 <= k < |sensors| && sensors[k] == got && got.name == w.name && forall j :: 0 <= j < k ==> sensors[j].name != w.name;
      assert i == k;
    }
  }

  /** What each status says about the row, told from its fields. */
  lemma StatusExactly(w: DesiredSensor, sensors: seq<InstalledSensor>, c: Catalogue, tools: Tools)
    ensures var status := WantedStatus(w, sensors, c, tools);
      && (status == Absent <==> forall row :: row in sensors ==> row.name != w.name)
      && (status == Status.Current <==> AsWanted(w, sensors, c, tools))
      && (status == Outdated <==> exists row, target ::
            && IsRow(sensors, w.name, row) && IsTarget(w, c, target)
            && (!VersionFits(target, row.version)
                || (ScriptsFit(w, c, row) && w.name in tools && ToolPlaced(row, tools[w.name]) && !ToolVersionFits(row, tools[w.name]))))
      && (status == Drifted <==> exists row, target ::
            && IsRow(sensors, w.name, row) && IsTarget(w, c, target) && VersionFits(target, row.version)
            && (!ScriptsFit(w, c, row)
                || (w.name in tools && !ToolFits(row, tools[w.name])
                    && !(ToolPlaced(row, tools[w.name]) && !ToolVersionFits(row, tools[w.name])))))
      && status != Status.Unmanaged
  {
    hide Versions.AtLeast;
    RowIsFirst(sensors, w.name);
    OneRowOneTarget(w, sensors, c);
    if Row(sensors, w.name).Some? {
      var row, target := Row(sensors, w.name).value, Target(w, c);
      RowStatus(w, row, target, c, tools);
      assert IsRow(sensors, w.name, row) && IsTarget(w, c, target);
    }
    hide IsRow, IsTarget, ToolFits, ToolPlaced, ToolVersionFits, ScriptsFit, VersionFits, SensorStatus;
  }

  lemma RowStatus(w: DesiredSensor, row: InstalledSensor, target: Option<string>, c: Catalogue, tools: Tools)
    ensures var tool := Lookup(tools, w.name);
      var status := SensorStatus(Some(row), target, Lookup(c.checksums, w.name), Lookup(c.helperChecksums, w.name), tool);
      && (status == Status.Current <==>
            VersionFits(target, row.version) && ScriptsFit(w, c, row) && (tool.Some? ==> ToolFits(row, tool.value)))
      && (status == Outdated <==>
            || !VersionFits(target, row.version)
            || (ScriptsFit(w, c, row) && tool.Some? && ToolPlaced(row, tool.value) && !ToolVersionFits(row, tool.value)))
      && status in {Status.Current, Outdated, Drifted}
  {
    hide Versions.AtLeast;
  }

  /** A changed script is found, whatever the rest says. */
  lemma ChangedScriptDrifts()
    ensures var row := InstalledSensor(
              "ping", Some("2.0"), Some("bad"), [], None, None, None, None, None, None, None, None, None);
            var c := Catalogue(map["ping" := "2.0"], map["ping" := "good"], map[], {});
            WantedStatus(DesiredSensor("ping", None), [row], c, map[]) == Drifted
  {
    assert |"bad"| == 3 && |"good"| == 4 && |"2.0"| == 3;
  }

  // --- Who is deployed -----------------------------------------------------

  /** Some wanted entry of this name is not current. */
  ghost predicate Touched(
      desired: DesiredState, sensors: seq<InstalledSensor>, catalogue: Catalogue, tools: Tools, name: string) {
    exists w :: w in desired.sensors && w.name == name && NeedsDeploy(WantedStatus(w, sensors, catalogue, tools))
  }

  lemma {:induction false} NeedingExactly(
      wanted: seq<DesiredSensor>, sensors: seq<InstalledSensor>, catalogue: Catalogue, tools: Tools, name: string)
    ensures Needing(wanted, sensors, catalogue, tools, name) > 0
            <==> exists w :: w in wanted && w.name == name && NeedsDeploy(WantedStatus(w, sensors, catalogue, tools))
  {
    if wanted != [] {
      var front, last := wanted[..|wanted| - 1], wanted[|wanted| - 1];
      NeedingExactly(front, sensors, catalogue, tools, name);
      assert wanted == front + [last];
    }
  }

  lemma DeploysByStatus(
    desired: DesiredState, observed: ObservedState, catalogue: Catalogue, tools: Tools, expectedCa: Option<string>, name: string)
    ensures DeploySensor(name) in PlanFor(desired, observed, catalogue, tools, expectedCa)
            <==> observed.reachable && Touched(desired, observed.sensors, catalogue, tools, name)
    ensures name !in Names(desired.sensors) ==> DeploySensor(name) !in PlanFor(desired, observed, catalogue, tools, expectedCa)
  {
    hide WantedStatus, PlanFor, Needing;
    var plan := PlanFor(desired, observed, catalogue, tools, expectedCa);
    PlanExactly(desired, observed, catalogue, tools, expectedCa, DeploySensor(name));
    NeedingExactly(desired.sensors, observed.sensors, catalogue, tools, name);
    assert DeploySensor(name) in plan <==> DeploySensor(name) in multiset(plan);
  }

  /** Nothing is wrong that an action could put right. */
  ghost predicate Settled(
      desired: DesiredState, observed: ObservedState, catalogue: Catalogue, tools: Tools,
      expectedCa: Option<string>) {
    && observed.service == Active
    && !CaWrong(desired, observed, expectedCa)
    && !NameWrong(desired, observed)
    && forall w :: w in desired.sensors ==> WantedStatus(w, observed.sensors, catalogue, tools) == Status.Current
  }

  lemma EmptyByStatus(
      desired: DesiredState, observed: ObservedState, catalogue: Catalogue, tools: Tools, expectedCa: Option<string>)
    ensures PlanFor(desired, observed, catalogue, tools, expectedCa) == []
            <==> !observed.reachable || Settled(desired, observed, catalogue, tools, expectedCa)
  {
    hide WantedStatus, PlanFor, Needing;
    var plan := PlanFor(desired, observed, catalogue, tools, expectedCa);
    if plan == [] {
      forall a: Action ensures Due(a, desired, observed, catalogue, tools, expectedCa) == 0 {
        PlanExactly(desired, observed, catalogue, tools, expectedCa, a);
      }
      assert Due(RestartService, desired, observed, catalogue, tools, expectedCa) == 0;
      assert Due(InstallCa, desired, observed, catalogue, tools, expectedCa) == 0;
      assert Due(Configure, desired, observed, catalogue, tools, expectedCa) == 0;
      forall w | observed.reachable && w in desired.sensors
        ensures WantedStatus(w, observed.sensors, catalogue, tools) == Status.Current
      {
        assert Due(DeploySensor(w.name), desired, observed, catalogue, tools, expectedCa) == 0;
        NeedingExactly(desired.sensors, observed.sensors, catalogue, tools, w.name);
        NeverUnmanaged(w, observed.sensors, catalogue, tools);
      }
    } else {
      assert plan[0] in multiset(plan);
      PlanExactly(desired, observed, catalogue, tools, expectedCa, plan[0]);
      if plan[0].DeploySensor? {
        NeedingExactly(desired.sensors, observed.sensors, catalogue, tools, plan[0].sensor);
        forall w | w in desired.sensors ensures NeedsDeploy(WantedStatus(w, observed.sensors, catalogue, tools))
            <==> WantedStatus(w, observed.sensors, catalogue, tools) != Status.Current {
          NeverUnmanaged(w, observed.sensors, catalogue, tools);
        }
      }
    }
  }

  lemma NeverUnmanaged(wanted: DesiredSensor, sensors: seq<InstalledSensor>, catalogue: Catalogue, tools: Tools)
    ensures NeedsDeploy(WantedStatus(wanted, sensors, catalogue, tools)) <==> WantedStatus(wanted, sensors, catalogue, tools) != Status.Current
  {
  }

  /** Deployed are exactly the wanted sensors that are not as they are wanted; a sensor
      nobody asked for never is. */
  lemma DeploysExactly(
    desired: DesiredState, observed: ObservedState, catalogue: Catalogue, tools: Tools, expectedCa: Option<string>, name: string)
    ensures DeploySensor(name) in PlanFor(desired, observed, catalogue, tools, expectedCa)
            <==> observed.reachable
                 && exists w :: w in desired.sensors && w.name == name && !AsWanted(w, observed.sensors, catalogue, tools)
    ensures name !in Names(desired.sensors) ==> DeploySensor(name) !in PlanFor(desired, observed, catalogue, tools, expectedCa)
  {
    hide WantedStatus, PlanFor, AsWanted;
    DeploysByStatus(desired, observed, catalogue, tools, expectedCa, name);
    CurrentIsAsWanted(observed.sensors, catalogue, tools);
  }

  lemma CurrentIsAsWanted(sensors: seq<InstalledSensor>, catalogue: Catalogue, tools: Tools)
    ensures forall w :: NeedsDeploy(WantedStatus(w, sensors, catalogue, tools)) <==> !AsWanted(w, sensors, catalogue, tools)
    ensures forall w :: WantedStatus(w, sensors, catalogue, tools) == Status.Current <==> AsWanted(w, sensors, catalogue, tools)
  {
    hide WantedStatus, AsWanted;
    forall w
      ensures NeedsDeploy(WantedStatus(w, sensors, catalogue, tools)) <==> !AsWanted(w, sensors, catalogue, tools)
      ensures WantedStatus(w, sensors, catalogue, tools) == Status.Current <==> AsWanted(w, sensors, catalogue, tools)
    {
      StatusExactly(w, sensors, catalogue, tools);
      NeverUnmanaged(w, sensors, catalogue, tools);
    }
  }

  /** The plan is empty exactly where the probe does not answer, or the service runs, the
      certificate and the name are right and every wanted sensor is as it is wanted. */
  lemma EmptyPlanExactly(
      desired: DesiredState, observed: ObservedState, catalogue: Catalogue, tools: Tools, expectedCa: Option<string>)
    ensures PlanFor(desired, observed, catalogue, tools, expectedCa) == []
            <==> !observed.reachable
                 || (&& observed.service == Active
                     && !CaWrong(desired, observed, expectedCa)
                     && !NameWrong(desired, observed)
                     && forall w :: w in desired.sensors ==> AsWanted(w, observed.sensors, catalogue, tools))
  {
    hide WantedStatus, PlanFor, AsWanted;
    EmptyByStatus(desired, observed, catalogue, tools, expectedCa);
    CurrentIsAsWanted(observed.sensors, catalogue, tools);
  }

  function Named(name: string): Comparison -> bool {
    (row: Comparison) => row.name == name
  }

  /** The sensor tab lists every wanted entry and every sensor nobody asked for, by name;
      rows of one name stay in the order they were compared in. */
  lemma RowsInNameOrder(desired: DesiredState, sensors: seq<InstalledSensor>, catalogue: Catalogue, tools: Tools)
    ensures var rows, unsorted := CompareSensors(desired, sensors, catalogue, tools), UnsortedRows(desired, sensors, catalogue, tools);
            && Ordered(rows, NameBefore)
            && multiset(rows) == multiset(unsorted)
            && forall name :: Filter(rows, Named(name)) == Filter(unsorted, Named(name))
  {
    forall a, b: Comparison | NameBefore(a, b) ensures !NameBefore(b, a) {
      TextAsymmetric(a.name, b.name);
    }
    forall a, b, c: Comparison | !NameBefore(b, a) && !NameBefore(c, b) ensures !NameBefore(c, a) {
      TextTransitive(a.name, b.name, c.name);
    }
    var unsorted := UnsortedRows(desired, sensors, catalogue, tools);
    SortedOrders(unsorted, NameBefore);
    SortedKeeps(unsorted, NameBefore);
    forall name ensures Filter(Sorted(unsorted, NameBefore), Named(name)) == Filter(unsorted, Named(name)) {
      SortedStable(unsorted, NameBefore, Named(name));
    }
  }
}
