/** What should be true of a probe against what is: the comparison, the findings and the
    ordered plan. */
module Reconciliation {
  import opened Prelude
  import opened ProbeConfig
  import opened StableSort
  import Versions

  datatype ServiceState = Active | Inactive | Unknown

  /** One row of the probe's own sensor list. */
  datatype InstalledSensor = InstalledSensor(
    name: string,
    version: Option<string>,
    sha256: Option<string>,
    interfaces: seq<string>,
    helperState: Option<string>,
    helperSha256: Option<string>,
    toolName: Option<string>,
    toolVersion: Option<string>,
    toolPlatform: Option<string>,
    toolSha256: Option<string>,
    toolSource: Option<string>,
    toolPath: Option<string>,
    toolCompatible: Option<bool>)

  datatype DesiredSensor = DesiredSensor(name: string, version: Option<string>)

  datatype DesiredState = DesiredState(
    sensors: seq<DesiredSensor>,
    probeName: Option<string>,
    caRequired: bool)

  datatype ObservedState = ObservedState(
    username: string,
    reachable: bool,
    service: ServiceState,
    caSha256: Option<string>,
    probeName: Option<string>,
    packageVersion: Option<string>,
    sensors: seq<InstalledSensor>)

  /** The executable contract of one sensor on the probe's platform. */
  datatype ToolExpectation = ToolExpectation(
    name: string,
    version: string,
    platform: string,
    source: Option<string>,
    path: Option<string>,
    sha256: Option<string>,
    supported: bool)

  datatype Catalogue = Catalogue(
    versions: map<string, string>,
    checksums: map<string, string>,
    helperChecksums: map<string, string>,
    needsInterface: set<string>)

  type Tools = map<string, ToolExpectation>

  function Lookup<V>(m: map<string, V>, key: string): Option<V> {
    if key in m then Some(m[key]) else None
  }

  // --- Comparison ----------------------------------------------------------

  datatype Status = Absent | Current | Outdated | Drifted | Unmanaged

  function SensorStatus(
    installed: Option<InstalledSensor>,
    target: Option<string>,
    expectedSha: Option<string>,
    expectedHelperSha: Option<string>,
    expectedTool: Option<ToolExpectation>): Status
  {
    if installed.None? then Absent
    else
      var row := installed.value;
      if Truthy(target) && row.version != target then Outdated
      else if Truthy(expectedSha) && Truthy(row.sha256) && row.sha256 != expectedSha then Drifted
      else if Truthy(expectedHelperSha) && Truthy(row.helperSha256) && row.helperSha256 != expectedHelperSha then Drifted
      else if expectedTool.Some? then ToolStatus(row, expectedTool.value)
      else Current
  }

  function ToolStatus(row: InstalledSensor, tool: ToolExpectation): Status {
    if !tool.supported then Drifted
    else if row.toolName != Some(tool.name) then Drifted
    else if row.toolPlatform != Some(tool.platform) then Drifted
    else if row.toolSource != tool.source then Drifted
    else if row.toolPath != tool.path then Drifted
    else if tool.source == Some("system") && !Versions.AtLeast(row.toolVersion, tool.version) then Outdated
    else if tool.source != Some("system") && row.toolVersion != Some(tool.version) then Outdated
    else if row.toolCompatible != Some(true) then Drifted
    else if tool.source == Some("managed") && row.toolSha256 != tool.sha256 then Drifted
    else Current
  }

  datatype Comparison = Comparison(name: string, status: Status)

  /** The first row of that name. */
  function Row(sensors: seq<InstalledSensor>, name: string): Option<InstalledSensor> {
    if sensors == [] then None
    else if sensors[0].name == name then Some(sensors[0])
    else Row(sensors[1..], name)
  }

  /** A pinned version is honoured; without one the catalogue is tracked. */
  function Target(wanted: DesiredSensor, catalogue: Catalogue): Option<string> {
    if Truthy(wanted.version) then wanted.version else Lookup(catalogue.versions, wanted.name)
  }

  function WantedStatus(
      wanted: DesiredSensor, sensors: seq<InstalledSensor>, catalogue: Catalogue, tools: Tools): Status {
    SensorStatus(
      Row(sensors, wanted.name),
      Target(wanted, catalogue),
      Lookup(catalogue.checksums, wanted.name),
      Lookup(catalogue.helperChecksums, wanted.name),
      Lookup(tools, wanted.name))
  }

  function WantedRows(
      wanted: seq<DesiredSensor>, sensors: seq<InstalledSensor>, catalogue: Catalogue,
      tools: Tools): seq<Comparison> {
    if wanted == [] then []
    else
      var last := wanted[|wanted| - 1];
      WantedRows(wanted[..|wanted| - 1], sensors, catalogue, tools)
      + [Comparison(last.name, WantedStatus(last, sensors, catalogue, tools))]
  }

  function Names(wanted: seq<DesiredSensor>): set<string> {
    set w | w in wanted :: w.name
  }

  function UnmanagedRows(sensors: seq<InstalledSensor>, wanted: set<string>): seq<Comparison> {
    if sensors == [] then []
    else
      var last := sensors[|sensors| - 1];
      UnmanagedRows(sensors[..|sensors| - 1], wanted)
      + if last.name in wanted then [] else [Comparison(last.name, Status.Unmanaged)]
  }

  predicate NameBefore(a: Comparison, b: Comparison) {
    TextBefore(a.name, b.name)
  }

  function UnsortedRows(
      desired: DesiredState, sensors: seq<InstalledSensor>, catalogue: Catalogue, tools: Tools): seq<Comparison> {
    WantedRows(desired.sensors, sensors, catalogue, tools) + UnmanagedRows(sensors, Names(desired.sensors))
  }

  function CompareSensors(
      desired: DesiredState, sensors: seq<InstalledSensor>, catalogue: Catalogue, tools: Tools): seq<Comparison> {
    Sorted(UnsortedRows(desired, sensors, catalogue, tools), NameBefore)
  }

  // --- Findings ------------------------------------------------------------

  datatype Kind =
    | ServiceInactive | CaMissing | CaMismatched | NameMismatch
    | SensorMissing | SensorOutdated | SensorDrifted | SensorUnmanaged
    | InterfaceMissing | HelperInactive

  /** `ref` names the probe or the sensor. */
  datatype Deviation = Deviation(kind: Kind, ref: string) {
    /** Critical 0, warning 1, info 2; every kind is always raised with the same one. */
    function Severity(): nat {
      match kind
      case ServiceInactive | CaMissing | CaMismatched => 0
      case NameMismatch | SensorUnmanaged => 2
      case _ => 1
    }
  }

  predicate SeverityBefore(a: Deviation, b: Deviation) {
    a.Severity() < b.Severity()
  }

  datatype CaState = CaOk | CaGone | CaOther | CaUnknown

  function CaStateOf(observed: ObservedState, expected: Option<string>): CaState {
    if !observed.reachable then CaUnknown
    else if observed.caSha256.None? then CaGone
    else if expected.None? then CaUnknown
    else if observed.caSha256 == expected then CaOk
    else CaOther
  }

  function ServiceFinding(observed: ObservedState): seq<Deviation> {
    if observed.service != Active then [Deviation(ServiceInactive, observed.username)] else []
  }

  function CaFinding(desired: DesiredState, observed: ObservedState, expectedCa: Option<string>): seq<Deviation> {
    if !desired.caRequired then []
    else match CaStateOf(observed, expectedCa)
      case CaGone => [Deviation(CaMissing, observed.username)]
      case CaOther => [Deviation(CaMismatched, observed.username)]
      case _ => []
  }

  function NameFinding(desired: DesiredState, observed: ObservedState): seq<Deviation> {
    if Truthy(desired.probeName) && Truthy(observed.probeName) && desired.probeName != observed.probeName
    then [Deviation(NameMismatch, observed.username)] else []
  }

  function ProbeDeviations(desired: DesiredState, observed: ObservedState, expectedCa: Option<string>): seq<Deviation> {
    ServiceFinding(observed) + CaFinding(desired, observed, expectedCa) + NameFinding(desired, observed)
  }

  function SensorDeviation(row: Comparison): seq<Deviation> {
    match row.status
    case Absent => [Deviation(SensorMissing, row.name)]
    case Outdated => [Deviation(SensorOutdated, row.name)]
    case Drifted => [Deviation(SensorDrifted, row.name)]
    case Unmanaged => [Deviation(SensorUnmanaged, row.name)]
    case Current => []
  }

  function SensorDeviations(rows: seq<Comparison>): seq<Deviation> {
    if rows == [] then []
    else SensorDeviations(rows[..|rows| - 1]) + SensorDeviation(rows[|rows| - 1])
  }

  /** Installed, but unable to measure. */
  function QuietFailure(row: InstalledSensor, needsInterface: set<string>): seq<Deviation> {
    (if row.name in needsInterface && row.interfaces == [] then [Deviation(InterfaceMissing, row.name)] else [])
    + (if row.helperState == Some("inactive") then [Deviation(HelperInactive, row.name)] else [])
  }

  function QuietFailures(sensors: seq<InstalledSensor>, needsInterface: set<string>): seq<Deviation> {
    if sensors == [] then []
    else QuietFailures(sensors[..|sensors| - 1], needsInterface) + QuietFailure(sensors[|sensors| - 1], needsInterface)
  }

  function UnsortedDeviations(
    desired: DesiredState, observed: ObservedState, catalogue: Catalogue, tools: Tools, expectedCa: Option<string>): seq<Deviation>
  {
    ProbeDeviations(desired, observed, expectedCa)
    + SensorDeviations(CompareSensors(desired, observed.sensors, catalogue, tools))
    + QuietFailures(observed.sensors, catalogue.needsInterface)
  }

  function FindDeviations(
    desired: DesiredState, observed: ObservedState, catalogue: Catalogue, tools: Tools, expectedCa: Option<string>): seq<Deviation>
  {
    if !observed.reachable then []
    else Sorted(UnsortedDeviations(desired, observed, catalogue, tools, expectedCa), SeverityBefore)
  }

  // --- Plan ----------------------------------------------------------------

  datatype Action = RestartService | InstallCa | Configure | DeploySensor(sensor: string) {
    function Priority(): nat {
      match this
      case RestartService => 0
      case InstallCa => 1
      case Configure => 2
      case DeploySensor(_) => 3
    }
  }

  predicate PriorityBefore(a: Action, b: Action) {
    a.Priority() < b.Priority()
  }

  function ActionFor(deviation: Deviation): seq<Action> {
    match deviation.kind
    case ServiceInactive => [RestartService]
    case CaMissing | CaMismatched => [InstallCa]
    case NameMismatch => [Configure]
    case SensorMissing | SensorOutdated | SensorDrifted => [DeploySensor(deviation.ref)]
    case _ => []
  }

  function Actions(deviations: seq<Deviation>): seq<Action> {
    if deviations == [] then []
    else Actions(deviations[..|deviations| - 1]) + ActionFor(deviations[|deviations| - 1])
  }

  function BuildPlan(deviations: seq<Deviation>): seq<Action> {
    Sorted(Actions(deviations), PriorityBefore)
  }

  function PlanFor(
    desired: DesiredState, observed: ObservedState, catalogue: Catalogue, tools: Tools, expectedCa: Option<string>): seq<Action>
  {
    BuildPlan(FindDeviations(desired, observed, catalogue, tools, expectedCa))
  }

  // --- The loops -----------------------------------------------------------

  method Compare(desired: DesiredState, sensors: seq<InstalledSensor>, catalogue: Catalogue, tools: Tools)
    returns (rows: seq<Comparison>)
    ensures rows == CompareSensors(desired, sensors, catalogue, tools)
  {
    rows := [];
    var seen: set<string> := {};
    for i := 0 to |desired.sensors|
      invariant rows == WantedRows(desired.sensors[..i], sensors, catalogue, tools)
      invariant seen == Names(desired.sensors[..i])
    {
      var wanted := desired.sensors[i];
      assert desired.sensors[..i + 1] == desired.sensors[..i] + [wanted];
      seen := seen + {wanted.name};
      var target := if Truthy(wanted.version) then wanted.version else Lookup(catalogue.versions, wanted.name);
      var status := SensorStatus(
        Row(sensors, wanted.name),
        target,
        Lookup(catalogue.checksums, wanted.name),
        Lookup(catalogue.helperChecksums, wanted.name),
        Lookup(tools, wanted.name));
      rows := rows + [Comparison(wanted.name, status)];
    }
    assert desired.sensors[..|desired.sensors|] == desired.sensors;
    var unmanaged := ListUnmanaged(sensors, seen);
    rows := Sorted(rows + unmanaged, NameBefore);
  }

  method ListUnmanaged(sensors: seq<InstalledSensor>, seen: set<string>) returns (unmanaged: seq<Comparison>)
    ensures unmanaged == UnmanagedRows(sensors, seen)
  {
    unmanaged := [];
    for i := 0 to |sensors|
      invariant unmanaged == UnmanagedRows(sensors[..i], seen)
    {
      assert sensors[..i + 1][..i] == sensors[..i];
      if sensors[i].name !in seen {
        unmanaged := unmanaged + [Comparison(sensors[i].name, Status.Unmanaged)];
      }
    }
    assert sensors[..|sensors|] == sensors;
  }

  method Find(
    desired: DesiredState, observed: ObservedState, catalogue: Catalogue, tools: Tools, expectedCa: Option<string>)
    returns (deviations: seq<Deviation>)
    ensures deviations == FindDeviations(desired, observed, catalogue, tools, expectedCa)
  {
    if !observed.reachable {
      return [];
    }
    var rows := Compare(desired, observed.sensors, catalogue, tools);
    var judged := Judge(rows);
    var quiet := Listen(observed.sensors, catalogue.needsInterface);
    deviations := Sorted(ProbeDeviations(desired, observed, expectedCa) + judged + quiet, SeverityBefore);
  }

  method Judge(rows: seq<Comparison>) returns (found: seq<Deviation>)
    ensures found == SensorDeviations(rows)
  {
    found := [];
    for i := 0 to |rows|
      invariant found == SensorDeviations(rows[..i])
    {
      assert rows[..i + 1][..i] == rows[..i];
      found := found + SensorDeviation(rows[i]);
    }
    assert rows[..|rows|] == rows;
  }

  method Listen(sensors: seq<InstalledSensor>, needsInterface: set<string>) returns (found: seq<Deviation>)
    ensures found == QuietFailures(sensors, needsInterface)
  {
    found := [];
    for i := 0 to |sensors|
      invariant found == QuietFailures(sensors[..i], needsInterface)
    {
      assert sensors[..i + 1][..i] == sensors[..i];
      var quiet: seq<Deviation> := [];
      if sensors[i].name in needsInterface && sensors[i].interfaces == [] {
        quiet := quiet + [Deviation(InterfaceMissing, sensors[i].name)];
      }
      if sensors[i].helperState == Some("inactive") {
        quiet := quiet + [Deviation(HelperInactive, sensors[i].name)];
      }
      found := found + quiet;
    }
    assert sensors[..|sensors|] == sensors;
  }

  method Build(deviations: seq<Deviation>) returns (actions: seq<Action>)
    ensures actions == BuildPlan(deviations)
  {
    actions := [];
    for i := 0 to |deviations|
      invariant actions == Actions(deviations[..i])
    {
      assert deviations[..i + 1][..i] == deviations[..i];
      match deviations[i].kind {
        case ServiceInactive => actions := actions + [RestartService];
        case CaMissing => actions := actions + [InstallCa];
        case CaMismatched => actions := actions + [InstallCa];
        case NameMismatch => actions := actions + [Configure];
        case SensorMissing => actions := actions + [DeploySensor(deviations[i].ref)];
        case SensorOutdated => actions := actions + [DeploySensor(deviations[i].ref)];
        case SensorDrifted => actions := actions + [DeploySensor(deviations[i].ref)];
        case _ =>
      }
    }
    assert deviations[..|deviations|] == deviations;
    actions := Sorted(actions, PriorityBefore);
  }
}
