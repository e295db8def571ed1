/** The reconciliation job: the plan executed on the probe, and what the next plan finds. */
module ReconcileRun {
  import opened Prelude
  import opened Placeholders
  import opened ProbeConfig
  import opened StableSort
  import opened Reconciliation
  import opened ReconcilePlan
  import Versions

  /** What the run meets on either end: the authority to install, if its file is there,
      what the configuration is rendered from, the system tools' versions, per sensor, and
      what the probe itself turns down - a configuration that does not come up, a
      certificate it does not take, a sensor that fails its self-test. */
  datatype Host = Host(
    caDigest: Option<string>,
    site: Site,
    systemVersions: map<string, string>,
    refusesConfig: bool,
    refusesCa: bool,
    refusesSensors: set<string>)

  /** What can be shipped: the catalogue, and the tools for this probe's platform. */
  datatype Release = Release(catalogue: Catalogue, shipped: Tools)

  /** The rollout finds the sensor, its tool has a source on this platform, and the probe
      accepts it. */
  predicate Deployable(name: string, release: Release, host: Host) {
    && name in release.catalogue.versions
    && (name in release.shipped ==> release.shipped[name].supported)
    && name !in host.refusesSensors
  }

  function ResolvedName(desired: DesiredState, site: Site): string {
    if Truthy(desired.probeName) then desired.probeName.value else site.storedName
  }

  /** The configuration transaction gets through: the probe carries the package, the text is
      rendered, and the probe comes up with it. */
  predicate Configurable(o: ObservedState, desired: DesiredState, host: Host) {
    && Truthy(o.packageVersion)
    && host.site.Rendered(ResolvedName(desired, host.site)).Some?
    && !host.refusesConfig
  }

  predicate CaInstallable(host: Host) {
    host.caDigest.Some? && !host.refusesCa
  }

  /** The row a successful rollout leaves: always the catalogue's version. */
  function Landed(name: string, before: Option<InstalledSensor>, release: Release, host: Host): InstalledSensor
    requires Deployable(name, release, host)
  {
    var c, tool := release.catalogue, Lookup(release.shipped, name);
    InstalledSensor(
      name,
      Some(c.versions[name]),
      Lookup(c.checksums, name),
      if before.Some? then before.value.interfaces else [],
      if before.Some? then before.value.helperState else None,
      Lookup(c.helperChecksums, name),
      if tool.Some? then Some(tool.value.name) else None,
      if tool.None? then None
      else if tool.value.source == Some("system") then Lookup(host.systemVersions, name)
      else Some(tool.value.version),
      if tool.Some? then Some(tool.value.platform) else None,
      if tool.Some? then tool.value.sha256 else None,
      if tool.Some? then tool.value.source else None,
      if tool.Some? then tool.value.path else None,
      if tool.Some? then Some(true) else None)
  }

  function WithoutRow(sensors: seq<InstalledSensor>, name: string): seq<InstalledSensor> {
    if sensors == [] then []
    else if sensors[0].name == name then WithoutRow(sensors[1..], name)
    else [sensors[0]] + WithoutRow(sensors[1..], name)
  }

  /** The configuration transaction restarts the service, for both of its kinds.  None is
      the step that raises and ends the run; it leaves the probe as it was. */
  function Apply(
    o: ObservedState, action: Action, desired: DesiredState, release: Release, host: Host): Option<ObservedState>
  {
    match action
    case RestartService => if Configurable(o, desired, host) then Some(Configured(o, desired, host)) else None
    case Configure => if Configurable(o, desired, host) then Some(Configured(o, desired, host)) else None
    case InstallCa => if CaInstallable(host) then Some(o.(caSha256 := host.caDigest)) else None
    case DeploySensor(name) =>
      if !Deployable(name, release, host) then None
      else Some(o.(sensors := WithoutRow(o.sensors, name) + [Landed(name, Row(o.sensors, name), release, host)]))
  }

  function Configured(o: ObservedState, desired: DesiredState, host: Host): ObservedState {
    o.(service := Active, probeName := ReportedName(desired, host))
  }

  /** The name the probe reads from the text it is sent. */
  function ReportedName(desired: DesiredState, host: Host): Option<string> {
    match host.site.Rendered(ResolvedName(desired, host.site))
    case Some(text) => ReadName(text)
    case None => None
  }

  function Run(
      o: ObservedState, actions: seq<Action>, desired: DesiredState, release: Release, host: Host): ObservedState
    decreases |actions|
  {
    if actions == [] then o
    else match Apply(o, actions[0], desired, release, host)
      case None => o
      case Some(next) => Run(next, actions[1..], desired, release, host)
  }

  /** The loop over the plan; a cancellation is seen before the action at this index. */
  method RunPlan(
    o: ObservedState, actions: seq<Action>, desired: DesiredState, release: Release, host: Host, cancelled: Option<nat>)
    returns (now: ObservedState)
    ensures var seen := if cancelled.Some? && cancelled.value < |actions| then actions[..cancelled.value] else actions;
            now == Run(o, seen, desired, release, host)
  {
    now := o;
    ghost var seen := if cancelled.Some? && cancelled.value < |actions| then actions[..cancelled.value] else actions;
    for i := 0 to |actions|
      invariant cancelled.Some? ==> i <= cancelled.value
      invariant i <= |seen|
      invariant Run(now, seen[i..], desired, release, host) == Run(o, seen, desired, release, host)
    {
      if cancelled == Some(i) {
        assert seen[i..] == [];
        return;
      }
      assert seen[i..][0] == actions[i] && seen[i..][1..] == seen[i + 1..];
      var next := Apply(now, actions[i], desired, release, host);
      if next.None? {
        return;
      }
      now := next.value;
    }
  }

  // --- What a step does ----------------------------------------------------

  /** A restart or a configuration is refused exactly where the probe lacks the package, the
      text is not rendered, or the probe does not come up with it; done, the service runs,
      the name is the one read from the text, and nothing else has changed. */
  lemma ConfiguresExactly(o: ObservedState, a: Action, desired: DesiredState, release: Release, host: Host)
    requires a.RestartService? || a.Configure?
    ensures var name := if desired.probeName in {None, Some("")} then host.site.storedName else desired.probeName.value;
            var next := Apply(o, a, desired, release, host);
            && (next.None? <==>
                  o.packageVersion in {None, Some("")} || host.site.Rendered(name).None? || host.refusesConfig)
            && (next.Some? ==>
                  next.value == o.(service := Active, probeName := ReadName(host.site.Rendered(name).value)))
  {
    hide Site.Rendered, ReadName;
    NotTruthy(desired.probeName);
    NotTruthy(o.packageVersion);
  }

  /** A certificate is installed exactly where its file is there and the probe takes it. */
  lemma InstallsExactly(o: ObservedState, desired: DesiredState, release: Release, host: Host)
    ensures Apply(o, InstallCa, desired, release, host)
            == if host.caDigest.None? || host.refusesCa then None else Some(o.(caSha256 := host.caDigest))
  {
  }

  /** A rollout gets through exactly where the catalogue has the sensor, its tool has a
      source on this platform and the probe accepts it.  It leaves one row of the name, at
      the end: script, helper and tool are the catalogue's, of a system tool the version is
      the host's, and what the probe itself keeps of the row before stays. */
  lemma DeploysWhatIsShipped(o: ObservedState, name: string, desired: DesiredState, release: Release, host: Host)
    ensures var next := Apply(o, DeploySensor(name), desired, release, host);
            && (next.None? <==>
                  || name !in release.catalogue.versions
                  || (name in release.shipped && !release.shipped[name].supported)
                  || name in host.refusesSensors)
            && (next.Some? ==>
                  && next.value == o.(sensors := next.value.sensors) && next.value.sensors != []
                  && next.value.sensors[..|next.value.sensors| - 1] == Filter(o.sensors, NotNamed(name))
                  && ShippedRow(next.value.sensors[|next.value.sensors| - 1], name, Row(o.sensors, name), release, host))
  {
    WithoutRowFilters(o.sensors, name);
  }

  function NotNamed(name: string): InstalledSensor -> bool {
    (row: InstalledSensor) => row.name != name
  }

  lemma {:induction false} WithoutRowFilters(sensors: seq<InstalledSensor>, name: string)
    ensures WithoutRow(sensors, name) == Filter(sensors, NotNamed(name))
  {
    if sensors != [] {
      WithoutRowFilters(sensors[1..], name);
    }
  }

  ghost predicate ShippedRow(row: InstalledSensor, name: string, before: Option<InstalledSensor>, release: Release, host: Host) {
    && row.name == name
    && name in release.catalogue.versions && row.version == Some(release.catalogue.versions[name])
    && row.sha256 == Expected(release.catalogue.checksums, name)
    && row.helperSha256 == Expected(release.catalogue.helperChecksums, name)
    && (before.None? ==> row.interfaces == [] && row.helperState == None)
    && (before.Some? ==> row.interfaces == before.value.interfaces && row.helperState == before.value.helperState)
    && (name !in release.shipped ==>
          row.toolName == row.toolVersion == row.toolPlatform == row.toolSha256 == row.toolSource == row.toolPath == None
          && row.toolCompatible == None)
    && (name in release.shipped ==>
          var tool := release.shipped[name];
          && row.toolName == Some(tool.name) && row.toolPlatform == Some(tool.platform) && row.toolSha256 == tool.sha256
          && row.toolSource == tool.source && row.toolPath == tool.path && row.toolCompatible == Some(true)
          && row.toolVersion == if tool.source == Some("system") then Expected(host.systemVersions, name) else Some(tool.version))
  }

  // --- What a run leaves ---------------------------------------------------

  /** The row is as a rollout leaves it. */
  predicate IsLanded(row: Option<InstalledSensor>, name: string, release: Release, host: Host) {
    Deployable(name, release, host) && row.Some? && row.value == Landed(name, row, release, host)
  }

  lemma {:induction false} RowAfterDeploy(
      sensors: seq<InstalledSensor>, name: string, landed: InstalledSensor, other: string)
    requires landed.name == name
    ensures Row(WithoutRow(sensors, name) + [landed], other) == if other == name then Some(landed) else Row(sensors, other)
  {
    if sensors == [] {
      assert WithoutRow(sensors, name) + [landed] == [landed];
    } else {
      RowAfterDeploy(sensors[1..], name, landed, other);
      if sensors[0].name != name {
        var rest := WithoutRow(sensors[1..], name);
        assert ([sensors[0]] + rest + [landed])[1..] == rest + [landed];
      }
    }
  }

  lemma {:induction false} DeploysKeepTheProbe(
      o: ObservedState, actions: seq<Action>, desired: DesiredState, release: Release, host: Host)
    requires forall a :: a in actions ==> a.DeploySensor?
    ensures Run(o, actions, desired, release, host) == o.(sensors := Run(o, actions, desired, release, host).sensors)
    decreases |actions|
  {
    if actions != [] {
      assert actions[0] in actions;
      match Apply(o, actions[0], desired, release, host)
      case None =>
      case Some(next) => DeploysKeepTheProbe(next, actions[1..], desired, release, host);
    }
  }

  /** The step can be carried out, as far as it is one of the probe's own. */
  predicate Possible(o: ObservedState, a: Action, desired: DesiredState, host: Host) {
    match a
    case RestartService => Configurable(o, desired, host)
    case Configure => Configurable(o, desired, host)
    case InstallCa => CaInstallable(host)
    case DeploySensor(_) => true
  }

  /** Where the probe's own steps can be carried out, only the rows depend on how far the
      rollouts got. */
  lemma {:induction false} ProbeAfterRun(
      o: ObservedState, actions: seq<Action>, desired: DesiredState, release: Release, host: Host)
    requires Ordered(actions, PriorityBefore)
    requires forall a :: a in actions ==> Possible(o, a, desired, host)
    ensures var r := Run(o, actions, desired, release, host);
            var configured := RestartService in actions || Configure in actions;
            && r.service == (if configured then Active else o.service)
            && r.caSha256 == (if InstallCa in actions then host.caDigest else o.caSha256)
            && r.probeName == (if configured then Configured(o, desired, host).probeName else o.probeName)
    decreases |actions|
  {
    if actions != [] {
      var first, rest := actions[0], actions[1..];
      assert actions == [first] + rest;
      assert first in actions && Ordered(rest, PriorityBefore);
      if first.DeploySensor? {
        forall a | a in actions ensures a.DeploySensor? {
          var i :| 0 <= i < |actions| && actions[i] == a;
          assert i > 0 ==> !PriorityBefore(actions[i], actions[0]);
        }
        DeploysKeepTheProbe(o, actions, desired, release, host);
      } else {
        var next := Apply(o, first, desired, release, host).value;
        forall a | a in rest ensures Possible(next, a, desired, host) {
          assert a in actions;
        }
        ProbeAfterRun(next, rest, desired, release, host);
      }
    }
  }

  /** What no run changes, and what a step that cannot be carried out leaves as it was. */
  lemma {:induction false} RefusedChangesNothing(
      o: ObservedState, actions: seq<Action>, desired: DesiredState, release: Release, host: Host)
    ensures var r := Run(o, actions, desired, release, host);
            && r.reachable == o.reachable && r.username == o.username && r.packageVersion == o.packageVersion
            && (!Configurable(o, desired, host) ==> r.service == o.service && r.probeName == o.probeName)
            && (!CaInstallable(host) ==> r.caSha256 == o.caSha256)
    decreases |actions|
  {
    hide Site.Rendered, ReadName, Deployable, Landed;
    if actions != [] {
      match Apply(o, actions[0], desired, release, host)
      case None =>
      case Some(next) => RefusedChangesNothing(next, actions[1..], desired, release, host);
    }
  }

  /** A row changes only where a rollout of that sensor was planned and could succeed. */
  lemma {:induction false} OtherRowsStay(
      o: ObservedState, actions: seq<Action>, desired: DesiredState, release: Release, host: Host, name: string)
    requires DeploySensor(name) !in actions || !Deployable(name, release, host)
    ensures Row(Run(o, actions, desired, release, host).sensors, name) == Row(o.sensors, name)
    decreases |actions|
  {
    if actions != [] {
      var first := actions[0];
      assert actions == [first] + actions[1..];
      match Apply(o, first, desired, release, host)
      case None =>
      case Some(next) =>
        OtherRowsStay(next, actions[1..], desired, release, host, name);
        if first.DeploySensor? {
          RowAfterDeploy(o.sensors, first.sensor, Landed(first.sensor, Row(o.sensors, first.sensor), release, host), name);
        }
    }
  }

  /** Once landed, a sensor stays landed through the rest of the run. */
  lemma {:induction false} LandedStays(
      o: ObservedState, actions: seq<Action>, desired: DesiredState, release: Release, host: Host, name: string)
    requires IsLanded(Row(o.sensors, name), name, release, host)
    ensures IsLanded(Row(Run(o, actions, desired, release, host).sensors, name), name, release, host)
    decreases |actions|
  {
    if actions != [] {
      var first := actions[0];
      match Apply(o, first, desired, release, host)
      case None =>
      case Some(next) =>
        if first.DeploySensor? {
          RowAfterDeploy(o.sensors, first.sensor, Landed(first.sensor, Row(o.sensors, first.sensor), release, host), name);
        }
        LandedStays(next, actions[1..], desired, release, host, name);
    }
  }

  lemma {:induction false} PlannedRowsLand(
      o: ObservedState, actions: seq<Action>, desired: DesiredState, release: Release, host: Host, name: string)
    requires DeploySensor(name) in actions
    requires forall a :: a in actions ==> Possible(o, a, desired, host)
    requires forall n :: DeploySensor(n) in actions ==> Deployable(n, release, host)
    ensures IsLanded(Row(Run(o, actions, desired, release, host).sensors, name), name, release, host)
    decreases |actions|
  {
    var first, rest := actions[0], actions[1..];
    assert actions == [first] + rest;
    assert first in actions && (first.DeploySensor? ==> Deployable(first.sensor, release, host));
    var next := Apply(o, first, desired, release, host).value;
    if first == DeploySensor(name) {
      RowAfterDeploy(o.sensors, name, Landed(name, Row(o.sensors, name), release, host), name);
      LandedStays(next, rest, desired, release, host, name);
    } else {
      forall a | a in rest ensures Possible(next, a, desired, host) {
        assert a in actions;
      }
      PlannedRowsLand(next, rest, desired, release, host, name);
    }
  }

  // --- Convergence ---------------------------------------------------------

  /** Everything a run is given: the job plans without the tools, the preview with them. */
  datatype Setup = Setup(
    desired: DesiredState,
    tools: Tools,
    release: Release,
    host: Host,
    expectedCa: Option<string>)
  {
    /** Both ends speak of the same tools and of the same certificate authority. */
    predicate Consistent() {
      && (forall n :: n in tools ==> n in release.shipped && tools[n] == release.shipped[n])
      && (expectedCa.Some? ==> expectedCa == host.caDigest)
    }
  }

  function PlanOf(x: Setup, o: ObservedState): seq<Action> {
    PlanFor(x.desired, o, x.release.catalogue, x.tools, x.expectedCa)
  }

  function AfterRun(x: Setup, o: ObservedState): ObservedState {
    Run(o, PlanOf(x, o), x.desired, x.release, x.host)
  }

  function StatusOf(x: Setup, wanted: DesiredSensor, o: ObservedState): Status {
    WantedStatus(wanted, o.sensors, x.release.catalogue, x.tools)
  }

  ghost predicate Touches(x: Setup, o: ObservedState, name: string) {
    Touched(x.desired, o.sensors, x.release.catalogue, x.tools, name)
  }

  /** Deploying this sensor can satisfy this wish: it is in the catalogue, its tool has a
      source, a pinned version is the catalogue's own, and a system tool is new enough. */
  predicate Settles(x: Setup, wanted: DesiredSensor) {
    && Deployable(wanted.name, x.release, x.host)
    && (Truthy(wanted.version) ==> wanted.version == Some(x.release.catalogue.versions[wanted.name]))
    && (wanted.name in x.tools && x.tools[wanted.name].source == Some("system")
        ==> Versions.AtLeast(Lookup(x.host.systemVersions, wanted.name), x.tools[wanted.name].version))
  }

  lemma LandedStatus(x: Setup, wanted: DesiredSensor, o: ObservedState)
    requires x.Consistent() && IsLanded(Row(o.sensors, wanted.name), wanted.name, x.release, x.host)
    ensures StatusOf(x, wanted, o) == Status.Current <==> Settles(x, wanted)
  {
  }

  lemma InPlanExactly(
    desired: DesiredState, o: ObservedState, c: Catalogue, tools: Tools, expectedCa: Option<string>, a: Action)
    ensures a in PlanFor(desired, o, c, tools, expectedCa) <==> Due(a, desired, o, c, tools, expectedCa) > 0
  {
    PlanExactly(desired, o, c, tools, expectedCa, a);
    var plan := PlanFor(desired, o, c, tools, expectedCa);
    assert a in plan <==> a in multiset(plan);
  }

  /** A configuration transaction is due, for either of its two reasons. */
  predicate ConfigDue(x: Setup, o: ObservedState) {
    o.service != Active || NameWrong(x.desired, o)
  }

  /** The transaction gets through, and the name read back from the text is the desired one,
      or none. */
  predicate ConfigSettles(x: Setup, o: ObservedState) {
    && Configurable(o, x.desired, x.host)
    && (Truthy(x.desired.probeName) ==> ReportedName(x.desired, x.host) in {None, x.desired.probeName})
  }

  /** Of a transaction that gets through and a name that is not read as absent, this can be
      told from the name: it holds no mark and does not end in a line break. */
  lemma NameSettlesExactly(x: Setup, o: ObservedState, before: string, after: string)
    requires Truthy(x.desired.probeName) && Configurable(o, x.desired, x.host)
    requires Surrounds(x.host.site, x.desired.probeName.value, before, after)
    requires ReportedName(x.desired, x.host).Some?
    ensures var name := x.desired.probeName.value;
            ConfigSettles(x, o) <==> !HasMark(name) && Chopped(name) == name
  {
    hide ReadName, HasMark, Surrounds, Filled;
    var site, name := x.host.site, x.desired.probeName.value;
    ReportedAsGiven(site, name, before, after);
    if name in {"none", "unknown"} && !HasMark(name) && Chopped(name) == name {
      PlainNameIsRead(site, name, before, after);
    }
  }

  /** The probe's own side is as it should be. */
  predicate ProbeIsRight(x: Setup, o: ObservedState) {
    o.service == Active && !CaWrong(x.desired, o, x.expectedCa) && !NameWrong(x.desired, o)
  }

  predicate ProbeSettles(x: Setup, o: ObservedState) {
    && (ConfigDue(x, o) ==> ConfigSettles(x, o))
    && (CaWrong(x.desired, o, x.expectedCa) ==> CaInstallable(x.host))
  }

  /** After a run the service runs and certificate and name are right, exactly where what
      was due of them could be carried out; the rollouts have no part in it. */
  lemma ProbeIsPutRightExactly(x: Setup, o: ObservedState)
    requires o.reachable && x.Consistent()
    ensures AfterRun(x, o).reachable
    ensures ProbeIsRight(x, AfterRun(x, o)) <==> ProbeSettles(x, o)
  {
    hide PlanFor, Run, Needing, Configurable;
    var plan := PlanOf(x, o);
    PlanInOrder(x.desired, o, x.release.catalogue, x.tools, x.expectedCa);
    RefusedChangesNothing(o, plan, x.desired, x.release, x.host);
    InPlanExactly(x.desired, o, x.release.catalogue, x.tools, x.expectedCa, RestartService);
    InPlanExactly(x.desired, o, x.release.catalogue, x.tools, x.expectedCa, InstallCa);
    InPlanExactly(x.desired, o, x.release.catalogue, x.tools, x.expectedCa, Configure);
    if (ConfigDue(x, o) ==> Configurable(o, x.desired, x.host))
       && (CaWrong(x.desired, o, x.expectedCa) ==> CaInstallable(x.host)) {
      ProbeAfterRun(o, plan, x.desired, x.release, x.host);
    }
  }

  /** A sensor that cannot be deployed still needs deploying afterwards. */
  lemma StuckStays(x: Setup, o: ObservedState, name: string)
    requires o.reachable && !Deployable(name, x.release, x.host) && Touches(x, o, name)
    ensures Touches(x, AfterRun(x, o), name)
  {
    hide SensorStatus, PlanFor, Run;
    OtherRowsStay(o, PlanOf(x, o), x.desired, x.release, x.host, name);
    var r := AfterRun(x, o);
    assert Row(r.sensors, name) == Row(o.sensors, name);
    var w :| w in x.desired.sensors && w.name == name && NeedsDeploy(StatusOf(x, w, o));
    assert StatusOf(x, w, r) == StatusOf(x, w, o);
    assert NeedsDeploy(WantedStatus(w, r.sensors, x.release.catalogue, x.tools));
  }

  /** Where the probe's own steps and every planned rollout get through, a wanted sensor is
      current afterwards exactly if its name was left alone or its wish is one a
      deployment satisfies. */
  lemma StatusAfterRun(x: Setup, o: ObservedState, w: DesiredSensor)
    requires o.reachable && x.Consistent() && w in x.desired.sensors
    requires ProbeSettles(x, o)
    requires forall n :: Touches(x, o, n) ==> Deployable(n, x.release, x.host)
    ensures StatusOf(x, w, AfterRun(x, o)) == Status.Current <==> (Touches(x, o, w.name) ==> Settles(x, w))
  {
    hide SensorStatus, PlanFor, Run, Settles, Landed;
    var plan := PlanOf(x, o);
    forall n ensures DeploySensor(n) in plan <==> Touches(x, o, n) {
      DeploysByStatus(x.desired, o, x.release.catalogue, x.tools, x.expectedCa, n);
    }
    if Touches(x, o, w.name) {
      PlannedIsPossible(x, o);
      PlannedRowsLand(o, plan, x.desired, x.release, x.host, w.name);
      LandedStatus(x, w, AfterRun(x, o));
    } else {
      OtherRowsStay(o, plan, x.desired, x.release, x.host, w.name);
      NeverUnmanaged(w, o.sensors, x.release.catalogue, x.tools);
    }
  }

  lemma PlannedIsPossible(x: Setup, o: ObservedState)
    requires o.reachable && ProbeSettles(x, o)
    ensures forall a :: a in PlanOf(x, o) ==> Possible(o, a, x.desired, x.host)
  {
    hide PlanFor, Needing, Configurable;
    forall a | a in PlanOf(x, o) ensures Possible(o, a, x.desired, x.host) {
      InPlanExactly(x.desired, o, x.release.catalogue, x.tools, x.expectedCa, a);
    }
  }

  /** Reconciliation converges, exactly where what is due on the probe itself can be
      carried out and every sensor it has to touch can be settled by a deployment: then,
      and only then, the next plan is empty. */
  lemma ConvergesExactly(x: Setup, o: ObservedState)
    requires o.reachable && x.Consistent()
    ensures PlanOf(x, AfterRun(x, o)) == []
            <==> ProbeSettles(x, o) && forall w :: w in x.desired.sensors && Touches(x, o, w.name) ==> Settles(x, w)
  {
    hide WantedStatus, PlanFor, Run, Settles, ProbeSettles;
    var r := AfterRun(x, o);
    EmptyByStatus(x.desired, r, x.release.catalogue, x.tools, x.expectedCa);
    ProbeIsPutRightExactly(x, o);
    if name :| Touches(x, o, name) && !Deployable(name, x.release, x.host) {
      StuckStays(x, o, name);
      var w :| w in x.desired.sensors && w.name == name && NeedsDeploy(StatusOf(x, w, r));
      SettlesIsDeployable(x, w);
    } else if ProbeSettles(x, o) {
      forall w | w in x.desired.sensors
        ensures StatusOf(x, w, r) == Status.Current <==> (Touches(x, o, w.name) ==> Settles(x, w))
      {
        StatusAfterRun(x, o, w);
      }
    }
  }

  lemma SettlesIsDeployable(x: Setup, w: DesiredSensor)
    ensures Settles(x, w) ==> Deployable(w.name, x.release, x.host)
  {
  }

  /** A configuration that is due and refused stops the run: a stopped probe, such as one
      without the package, and one that needs no certificate stay exactly as they are,
      and no sensor is reached. */
  lemma RefusedConfigurationStops(x: Setup, o: ObservedState)
    requires o.reachable && ConfigDue(x, o) && !Configurable(o, x.desired, x.host)
    requires o.service != Active || !CaWrong(x.desired, o, x.expectedCa)
    ensures AfterRun(x, o) == o
  {
    hide PlanFor, Needing, Configurable;
    var plan := PlanOf(x, o);
    var due := if o.service != Active then RestartService else Configure;
    InPlanExactly(x.desired, o, x.release.catalogue, x.tools, x.expectedCa, due);
    PlanInOrder(x.desired, o, x.release.catalogue, x.tools, x.expectedCa);
    var i :| 0 <= i < |plan| && plan[i] == due;
    assert i > 0 ==> !PriorityBefore(plan[i], plan[0]);
    assert plan[0] in plan;
    InPlanExactly(x.desired, o, x.release.catalogue, x.tools, x.expectedCa, plan[0]);
  }

  /** A sensor nobody asked for comes through every run as it was. */
  lemma UnmanagedUntouched(x: Setup, o: ObservedState, name: string)
    requires name !in Names(x.desired.sensors)
    ensures Row(AfterRun(x, o).sensors, name) == Row(o.sensors, name)
  {
    DeploysByStatus(x.desired, o, x.release.catalogue, x.tools, x.expectedCa, name);
    OtherRowsStay(o, PlanOf(x, o), x.desired, x.release, x.host, name);
  }

  // --- Where the promise falls short ---------------------------------------

  const CATALOGUE := Catalogue(map["ping" := "2.0"], map[], map[], {})
  const PROBE_ID := "00000000-0000-0000-0000-000000000000"
  const TEMPLATE := "" + ['\n'] + (NameLine() + ['\n'] + "")
  const SITE :=
    Site("p", PROBE_ID, "probe-key", "probe", "nats.example.org", None, 23561, Some("secret"), Some(TEMPLATE))
  const HOST := Host(Some("ca"), SITE, map[], false, false, {})

  function Probe(name: Option<string>, sensors: seq<InstalledSensor>): ObservedState {
    ObservedState("p", true, Active, None, name, Some("3.10.0"), sensors)
  }

  function Installed(version: string, tool: Option<string>): InstalledSensor {
    InstalledSensor("ping", Some(version), None, [], None, None, tool, None, None, None, None, None, None)
  }

  /** A pin is planned for but never rolled out: a sensor pinned below the catalogue is
      deployed at the catalogue's version, and is outdated for ever. */
  lemma PinIsNeverReached()
    ensures var desired := DesiredState([DesiredSensor("ping", Some("1.0"))], None, false);
            var x := Setup(desired, map[], Release(CATALOGUE, map[]), HOST, None);
            var o := Probe(None, [Installed("2.0", None)]);
            PlanOf(x, o) != [] && PlanOf(x, AfterRun(x, o)) != []
  {
    var wanted := DesiredSensor("ping", Some("1.0"));
    var x := Setup(DesiredState([wanted], None, false), map[], Release(CATALOGUE, map[]), HOST, None);
    var o := Probe(None, [Installed("2.0", None)]);
    assert StatusOf(x, wanted, o) == Outdated && !Settles(x, wanted);
    assert wanted in x.desired.sensors && Touches(x, o, "ping");
    hide PlanFor, WantedStatus, Run;
    EmptyByStatus(x.desired, o, CATALOGUE, map[], None);
    ConvergesExactly(x, o);
  }

  /** A name the configuration does not accept is planned for and refused by every run,
      although no sensor is touched at all. */
  lemma BlankInTheNameIsRefused()
    ensures var x := Setup(DesiredState([], Some("My Probe"), false), map[], Release(CATALOGUE, map[]), HOST, None);
            var o := Probe(Some("probe"), []);
            PlanOf(x, o) != [] && AfterRun(x, o) == o
  {
    var x := Setup(DesiredState([], Some("My Probe"), false), map[], Release(CATALOGUE, map[]), HOST, None);
    var o := Probe(Some("probe"), []);
    BlankIsNoName();
    NamesDiffer();
    assert ConfigDue(x, o) && !ConfigSettles(x, o);
    hide PlanFor, Run, Configurable;
    ConvergesExactly(x, o);
    EmptyByStatus(x.desired, o, CATALOGUE, map[], None);
    RefusedConfigurationStops(x, o);
  }

  lemma BlankIsNoName()
    ensures !NameOk("My Probe")
  {
    var name := "My Probe";
    assert Chopped(name) == name && name[2] == ' ';
  }

  function Naming(name: string): Setup {
    Setup(DesiredState([], Some(name), false), map[], Release(CATALOGUE, map[]), HOST, None)
  }

  lemma SiteIsComplete()
    ensures SITE.Complete()
  {
    hide ProbeIdOk, AccessKeyOk, NatsHostOk, UsernameOk;
    IdAndKeyAreOk();
    HostAndUserAreOk();
    assert |"nats.example.org"| == 16 && |"secret"| == 6;
  }

  lemma IdAndKeyAreOk()
    ensures ProbeIdOk(PROBE_ID) && AccessKeyOk("probe-key")
  {
    assert |PROBE_ID| == 36 && PROBE_ID[35] == '0';
    assert |"probe-key"| == 9 && "probe-key"[8] == 'y';
  }

  lemma HostAndUserAreOk()
    ensures NatsHostOk("nats.example.org") && UsernameOk("p")
  {
    assert "nats.example.org"[15] == 'g';
  }

  lemma TemplateSurrounds(name: string)
    ensures SITE.Complete() && Surrounds(SITE, name, "", "")
    ensures Filled("", SITE.Slots(name)) == ""
  {
    SiteIsComplete();
    hide Filled, IsKey, Mark, UsernameOk, ProbeIdOk, AccessKeyOk, NatsHostOk;
    SlotsAreKeyed(SITE, name);
    NoMarkWithoutAt("");
    FillingKeepsUnmarked("", SITE.Slots(name));
    assert NamesIn("") == [];
  }

  /** A configured name that is neither read back as it was given nor as none is planned for
      again by every run. */
  lemma OtherNameComesBack(name: string)
    requires name != "" && name != "probe" && SITE.Rendered(name).Some?
    requires ReadName(SITE.Rendered(name).value) !in {None, Some(name)}
    ensures var o := Probe(Some("probe"), []);
            Configurable(o, Naming(name).desired, HOST) && PlanOf(Naming(name), AfterRun(Naming(name), o)) != []
  {
    hide Site.Rendered, ReadName, PlanFor, Run;
    var x, o := Naming(name), Probe(Some("probe"), []);
    assert |"probe"| == 5;
    assert ConfigDue(x, o) && !ConfigSettles(x, o);
    ConvergesExactly(x, o);
  }

  /** What becomes of a name that fits the pattern and reads `filled` once the later values
      have gone into it. */
  lemma NameBecomes(name: string, filled: string)
    requires NameOk(name) && SITE.Complete() && Filled(name, SITE.Later()) == filled
    ensures SITE.Rendered(name).Some? <==> !HasMark(filled)
    ensures !HasMark(filled) && IsBare(Chopped(filled)) && Chopped(filled) !in {"none", "unknown"} ==>
      ReadName(SITE.Rendered(name).value) == Some(Chopped(filled))
  {
    hide Filled, HasMark, NameOk, ReadName, IsBare, NamesIn;
    TemplateSurrounds(name);
    AcceptedExactly(SITE, name, "", "");
    NoMarkWithoutAt("");
    if IsBare(Chopped(filled)) {
      FilledNameIsRead(SITE, name, "", "");
    }
  }

  /** A name with a line break at its end is accepted, written, and reported without it: the
      next plan configures the probe again. */
  lemma LineBreakNeverSticks()
    ensures var x, o := Naming("p\n"), Probe(Some("probe"), []);
            Configurable(o, x.desired, HOST) && PlanOf(x, AfterRun(x, o)) != []
  {
    var name := "p\n";
    assert Chopped(name) == "p" && name[1] == '\n';
    assert |"probe"| == 5 && |"p"| == 1 && |"none"| == 4 && |"unknown"| == 7;
    SiteIsComplete();
    SlotsAreKeyed(SITE, name);
    NoMarkWithoutAt(name);
    FillingKeepsUnmarked(name, SITE.Later());
    NameBecomes(name, name);
    OtherNameComesBack(name);
  }

  /** A name that holds the mark of the account is accepted and written with the account in
      its place: the probe answers to another name, and every plan configures it again. */
  lemma MarkInTheNameNeverSticks()
    ensures var x, o := Naming("p@@NATS_USER@@"), Probe(Some("probe"), []);
            && Configurable(o, x.desired, HOST)
            && AfterRun(x, o).probeName == Some("pp")
            && PlanOf(x, AfterRun(x, o)) != []
  {
    hide Filled, HasMark, NameOk, IsBare, Site.Rendered, Site.Complete, ReadName, PlanFor, Run;
    var name := "p@@NATS_USER@@";
    var x, o := Naming(name), Probe(Some("probe"), []);
    MarkedNames();
    SiteIsComplete();
    AccountGoesIn(SITE);
    PairIsBare();
    NameBecomes(name, "pp");
    assert |"probe"| == 5 && |"pp"| == 2 && |name| == 14;
    OtherNameComesBack(name);
    NameAfterRun(x, o);
  }

  lemma MarkedNames()
    ensures "p@@NATS_USER@@" == "p" + Mark("NATS_USER") && "p@@X@@" == "p" + Mark("X")
    ensures NameOk("p@@NATS_USER@@") && NameOk("p@@X@@")
    ensures HasMark("p@@X@@")
  {
    hide NameOk, HasMark, IsKey;
    KeysAreKeys();
    XIsKey();
    MarkedNameOk("NATS_USER");
    MarkedNameOk("X");
  }

  lemma PairIsBare()
    ensures Chopped("pp") == "pp" && IsBare("pp") && "pp" !in {"none", "unknown"}
    ensures "p" + SITE.username == "pp"
  {
    assert |"pp"| == 2 && |"none"| == 4 && |"unknown"| == 7;
  }

  /** Where a configuration is due and gets through, the probe reports the name read from
      the text, however far the run gets after it. */
  lemma NameAfterRun(x: Setup, o: ObservedState)
    requires o.reachable && x.Consistent() && ConfigDue(x, o) && Configurable(o, x.desired, x.host)
    requires CaWrong(x.desired, o, x.expectedCa) ==> CaInstallable(x.host)
    ensures AfterRun(x, o).probeName == ReportedName(x.desired, x.host)
  {
    hide PlanFor, Run, Needing, Configurable;
    PlanInOrder(x.desired, o, x.release.catalogue, x.tools, x.expectedCa);
    InPlanExactly(x.desired, o, x.release.catalogue, x.tools, x.expectedCa, RestartService);
    InPlanExactly(x.desired, o, x.release.catalogue, x.tools, x.expectedCa, InstallCa);
    InPlanExactly(x.desired, o, x.release.catalogue, x.tools, x.expectedCa, Configure);
    ProbeAfterRun(o, PlanOf(x, o), x.desired, x.release, x.host);
  }

  /** A name that holds a mark nobody knows fits the pattern and is refused by every run. */
  lemma UnknownMarkIsRefused()
    ensures var x, o := Naming("p@@X@@"), Probe(Some("probe"), []);
            && NameOk("p@@X@@") && PlanOf(x, o) != [] && AfterRun(x, o) == o
  {
    hide Filled, HasMark, NameOk, IsBare, Site.Rendered, Site.Complete, ReadName, PlanFor, Run;
    var name := "p@@X@@";
    var x, o := Naming(name), Probe(Some("probe"), []);
    MarkedNames();
    SiteIsComplete();
    UnknownMarkIsLeft(SITE);
    NameBecomes(name, name);
    assert |"probe"| == 5 && |name| == 6;
    EmptyByStatus(x.desired, o, CATALOGUE, map[], None);
    RefusedConfigurationStops(x, o);
  }

  lemma NamesDiffer()
    ensures "My Probe" != "probe" && "My Probe" != ""
  {
    assert |"My Probe"| == 8 && |"probe"| == 5;
  }

  /** The tool is the last thing the comparison looks at. */
  lemma ToolsOnlyAdd(w: DesiredSensor, sensors: seq<InstalledSensor>, c: Catalogue, tools: Tools)
    ensures WantedStatus(w, sensors, c, map[]) == Status.Current ==> Row(sensors, w.name).Some?
    ensures WantedStatus(w, sensors, c, tools) == Status.Current
            <==> WantedStatus(w, sensors, c, map[]) == Status.Current
                 && (w.name in tools ==> ToolFits(Row(sensors, w.name).value, tools[w.name]))
  {
  }

  /** Only the tool of this wanted sensor is wrong, and no other entry of its name has the
      job deploy it. */
  ghost predicate OnlyTheToolIsWrong(w: DesiredSensor, desired: DesiredState, o: ObservedState, release: Release) {
    && w.name in release.shipped
    && WantedStatus(w, o.sensors, release.catalogue, map[]) == Status.Current
    && Row(o.sensors, w.name).Some?
    && !ToolFits(Row(o.sensors, w.name).value, release.shipped[w.name])
    && !Touched(desired, o.sensors, release.catalogue, map[], w.name)
  }

  lemma TouchedWithTools(desired: DesiredState, o: ObservedState, release: Release, name: string)
    ensures Touched(desired, o.sensors, release.catalogue, release.shipped, name)
            <==> Touched(desired, o.sensors, release.catalogue, map[], name)
                 || exists w :: w in desired.sensors && w.name == name && OnlyTheToolIsWrong(w, desired, o, release)
  {
    var c, tools := release.catalogue, release.shipped;
    forall w | w in desired.sensors && w.name == name
      ensures NeedsDeploy(WantedStatus(w, o.sensors, c, map[])) <==> WantedStatus(w, o.sensors, c, map[]) != Status.Current
      ensures NeedsDeploy(WantedStatus(w, o.sensors, c, tools)) <==> WantedStatus(w, o.sensors, c, tools) != Status.Current
      ensures WantedStatus(w, o.sensors, c, map[]) == Status.Current ==> Row(o.sensors, w.name).Some?
      ensures WantedStatus(w, o.sensors, c, tools) == Status.Current
              <==> WantedStatus(w, o.sensors, c, map[]) == Status.Current
                   && (w.name in tools ==> ToolFits(Row(o.sensors, w.name).value, tools[w.name]))
    {
      NeverUnmanaged(w, o.sensors, c, map[]);
      NeverUnmanaged(w, o.sensors, c, tools);
      ToolsOnlyAdd(w, o.sensors, c, tools);
    }
    hide WantedStatus, ToolFits, Row;
  }

  /** The preview is planned with the tools, the job without: the preview announces what
      the job does and, besides, the deployment of every sensor whose tool alone is wrong,
      which the job leaves out. */
  lemma PreviewAgainstJob(
      desired: DesiredState, o: ObservedState, release: Release, expectedCa: Option<string>, a: Action)
    requires o.reachable
    ensures a in PlanFor(desired, o, release.catalogue, release.shipped, expectedCa)
            <==> a in PlanFor(desired, o, release.catalogue, map[], expectedCa)
                 || (a.DeploySensor? && exists w :: w in desired.sensors && w.name == a.sensor && OnlyTheToolIsWrong(w, desired, o, release))
  {
    hide PlanFor, Touched, OnlyTheToolIsWrong;
    if a.DeploySensor? {
      DeploysByStatus(desired, o, release.catalogue, map[], expectedCa, a.sensor);
      DeploysByStatus(desired, o, release.catalogue, release.shipped, expectedCa, a.sensor);
      TouchedWithTools(desired, o, release, a.sensor);
    } else {
      InPlanExactly(desired, o, release.catalogue, map[], expectedCa, a);
      InPlanExactly(desired, o, release.catalogue, release.shipped, expectedCa, a);
    }
  }

  /** A concrete preview the job does not carry out. */
  lemma PreviewPromisesMore()
    ensures var desired := DesiredState([DesiredSensor("ping", None)], None, false);
            var o := Probe(None, [Installed("2.0", Some("fping"))]);
            var tool := ToolExpectation("iperf3", "3.18", "linux", Some("managed"), None, None, true);
            && DeploySensor("ping") in PlanFor(desired, o, CATALOGUE, map["ping" := tool], None)
            && PlanFor(desired, o, CATALOGUE, map[], None) == []
  {
    var wanted := DesiredSensor("ping", None);
    var desired := DesiredState([wanted], None, false);
    var o := Probe(None, [Installed("2.0", Some("fping"))]);
    var tool := ToolExpectation("iperf3", "3.18", "linux", Some("managed"), None, None, true);
    assert WantedStatus(wanted, o.sensors, CATALOGUE, map[]) == Status.Current;
    assert WantedStatus(wanted, o.sensors, CATALOGUE, map["ping" := tool]) == Drifted;
    assert wanted in desired.sensors;
    hide PlanFor, WantedStatus;
    EmptyByStatus(desired, o, CATALOGUE, map[], None);
    DeploysByStatus(desired, o, CATALOGUE, map["ping" := tool], None, "ping");
  }
}
