/** What the comparison lists and what the findings say, told from the wish and from what
    the probe reports. */
module ReconcileFindings {
  import opened Prelude
  import opened StableSort
  import opened Reconciliation
  import opened ReconcilePlan

  // --- Rows ----------------------------------------------------------------

  function NotAmong(wanted: set<string>): InstalledSensor -> bool {
    (row: InstalledSensor) => row.name !in wanted
  }

  function Unasked(sensors: seq<InstalledSensor>): seq<Comparison> {
    if sensors == [] then [] else [Comparison(sensors[0].name, Status.Unmanaged)] + Unasked(sensors[1..])
  }

  lemma {:induction false} UnaskedConcat(a: seq<InstalledSensor>, b: seq<InstalledSensor>)
    ensures Unasked(a + b) == Unasked(a) + Unasked(b)
  {
    if a == [] {
      assert a + b == b;
    } else {
      assert (a + b)[1..] == a[1..] + b;
      UnaskedConcat(a[1..], b);
    }
  }

  lemma {:induction false} FilterConcat<T>(a: seq<T>, b: seq<T>, keep: T -> bool)
    ensures Filter(a + b, keep) == Filter(a, keep) + Filter(b, keep)
  {
    if a == [] {
      assert a + b == b;
    } else {
      assert (a + b)[1..] == a[1..] + b;
      FilterConcat(a[1..], b, keep);
    }
  }

  /** A row for each wish in turn, with its status, and after them one for each sensor the
      probe lists that nobody asked for, in its order: these are the rows that are sorted. */
  lemma {:induction false} RowsExactly(wanted: seq<DesiredSensor>, sensors: seq<InstalledSensor>, c: Catalogue, tools: Tools)
    ensures |WantedRows(wanted, sensors, c, tools)| == |wanted|
    ensures forall i :: 0 <= i < |wanted| ==>
      WantedRows(wanted, sensors, c, tools)[i] == Comparison(wanted[i].name, WantedStatus(wanted[i], sensors, c, tools))
  {
    hide WantedStatus;
    if wanted != [] {
      RowsExactly(wanted[..|wanted| - 1], sensors, c, tools);
    }
  }

  lemma {:induction false} UnmanagedExactly(sensors: seq<InstalledSensor>, wanted: set<string>)
    ensures UnmanagedRows(sensors, wanted) == Unasked(Filter(sensors, NotAmong(wanted)))
  {
    if sensors != [] {
      var front, last := sensors[..|sensors| - 1], sensors[|sensors| - 1];
      UnmanagedExactly(front, wanted);
      assert sensors == front + [last] && [last][1..] == [];
      FilterConcat(front, [last], NotAmong(wanted));
      UnaskedConcat(Filter(front, NotAmong(wanted)), Filter([last], NotAmong(wanted)));
    }
  }

  lemma {:induction false} UnaskedHas(sensors: seq<InstalledSensor>, x: Comparison)
    ensures x in Unasked(sensors) <==> exists row :: row in sensors && x == Comparison(row.name, Status.Unmanaged)
  {
    if sensors != [] {
      UnaskedHas(sensors[1..], x);
      assert sensors == [sensors[0]] + sensors[1..];
    }
  }

  lemma RowIsListedExactly(desired: DesiredState, sensors: seq<InstalledSensor>, c: Catalogue, tools: Tools, x: Comparison)
    ensures x in CompareSensors(desired, sensors, c, tools) <==>
      || (exists w :: w in desired.sensors && x == Comparison(w.name, WantedStatus(w, sensors, c, tools)))
      || (exists row :: row in sensors && row.name !in Names(desired.sensors) && x == Comparison(row.name, Status.Unmanaged))
  {
    hide WantedStatus, Sorted;
    var unsorted := UnsortedRows(desired, sensors, c, tools);
    SortedKeeps(unsorted, NameBefore);
    assert x in Sorted(unsorted, NameBefore) <==> x in multiset(Sorted(unsorted, NameBefore));
    assert x in unsorted <==> x in multiset(unsorted);
    WantedHas(desired.sensors, sensors, c, tools, x);
    UnmanagedHas(sensors, Names(desired.sensors), x);
  }

  lemma WantedHas(wanted: seq<DesiredSensor>, sensors: seq<InstalledSensor>, c: Catalogue, tools: Tools, x: Comparison)
    ensures x in WantedRows(wanted, sensors, c, tools)
            <==> exists w :: w in wanted && x == Comparison(w.name, WantedStatus(w, sensors, c, tools))
  {
    hide WantedStatus, WantedRows;
    RowsExactly(wanted, sensors, c, tools);
    var rows := WantedRows(wanted, sensors, c, tools);
    if x in rows {
      var i :| 0 <= i < |rows| && rows[i] == x;
      assert wanted[i] in wanted;
    }
    if w :| w in wanted && x == Comparison(w.name, WantedStatus(w, sensors, c, tools)) {
      var i :| 0 <= i < |wanted| && wanted[i] == w;
      assert rows[i] == x;
    }
  }

  lemma UnmanagedHas(sensors: seq<InstalledSensor>, wanted: set<string>, x: Comparison)
    ensures x in UnmanagedRows(sensors, wanted)
            <==> exists row :: row in sensors && row.name !in wanted && x == Comparison(row.name, Status.Unmanaged)
  {
    UnmanagedExactly(sensors, wanted);
    UnaskedHas(Filter(sensors, NotAmong(wanted)), x);
    forall row: InstalledSensor ensures row in Filter(sensors, NotAmong(wanted)) <==> row in sensors && row.name !in wanted {
      FilterMeaning(sensors, NotAmong(wanted), row);
    }
    hide UnmanagedRows, Unasked, Filter;
  }

  // --- Findings ------------------------------------------------------------

  /** Something is wrong in this way with the probe or the sensor of this name. */
  ghost predicate IsWrong(kind: Kind, ref: string, desired: DesiredState, o: ObservedState, c: Catalogue, tools: Tools, expectedCa: Option<string>) {
    match kind
    case ServiceInactive => ref == o.username && o.service != Active
    case CaMissing => ref == o.username && desired.caRequired && o.caSha256.None?
    case CaMismatched =>
      ref == o.username && desired.caRequired && o.caSha256.Some? && expectedCa.Some? && o.caSha256.value != expectedCa.value
    case NameMismatch =>
      ref == o.username && desired.probeName !in {None, Some("")} && o.probeName !in {None, Some("")} && desired.probeName != o.probeName
    case SensorMissing =>
      (exists w :: w in desired.sensors && w.name == ref) && forall row :: row in o.sensors ==> row.name != ref
    case SensorOutdated => exists w :: w in desired.sensors && w.name == ref && WantedStatus(w, o.sensors, c, tools) == Outdated
    case SensorDrifted => exists w :: w in desired.sensors && w.name == ref && WantedStatus(w, o.sensors, c, tools) == Drifted
    case SensorUnmanaged => exists row :: row in o.sensors && row.name == ref && ref !in Names(desired.sensors)
    case InterfaceMissing => exists row :: row in o.sensors && row.name == ref && ref in c.needsInterface && row.interfaces == []
    case HelperInactive => exists row :: row in o.sensors && row.name == ref && row.helperState == Some("inactive")
  }

  lemma {:induction false} SensorsJudged(rows: seq<Comparison>, d: Deviation)
    ensures d in SensorDeviations(rows) <==> exists x :: x in rows && d in SensorDeviation(x)
  {
    if rows != [] {
      var front, last := rows[..|rows| - 1], rows[|rows| - 1];
      SensorsJudged(front, d);
      assert rows == front + [last];
      hide SensorDeviation;
    }
  }

  lemma {:induction false} QuietHeard(sensors: seq<InstalledSensor>, needsInterface: set<string>, d: Deviation)
    ensures d in QuietFailures(sensors, needsInterface) <==> exists row :: row in sensors && d in QuietFailure(row, needsInterface)
  {
    if sensors != [] {
      var front, last := sensors[..|sensors| - 1], sensors[|sensors| - 1];
      QuietHeard(front, needsInterface, d);
      assert sensors == front + [last];
      hide QuietFailure;
    }
  }

  lemma FoundUnsorted(
      desired: DesiredState, o: ObservedState, c: Catalogue, tools: Tools, expectedCa: Option<string>, d: Deviation)
    requires o.reachable
    ensures d in FindDeviations(desired, o, c, tools, expectedCa) <==>
      || d in ProbeDeviations(desired, o, expectedCa)
      || d in SensorDeviations(CompareSensors(desired, o.sensors, c, tools))
      || d in QuietFailures(o.sensors, c.needsInterface)
  {
    hide Sorted, ProbeDeviations, SensorDeviations, QuietFailures, CompareSensors;
    var unsorted := UnsortedDeviations(desired, o, c, tools, expectedCa);
    SortedKeeps(unsorted, SeverityBefore);
    assert d in Sorted(unsorted, SeverityBefore) <==> d in multiset(Sorted(unsorted, SeverityBefore));
    assert d in unsorted <==> d in multiset(unsorted);
  }

  lemma ProbeFound(desired: DesiredState, o: ObservedState, c: Catalogue, tools: Tools, expectedCa: Option<string>, d: Deviation)
    requires o.reachable
    ensures d in ProbeDeviations(desired, o, expectedCa) <==>
      d.kind in {ServiceInactive, CaMissing, CaMismatched, NameMismatch} && IsWrong(d.kind, d.ref, desired, o, c, tools, expectedCa)
  {
  }

  lemma SensorFound(desired: DesiredState, o: ObservedState, c: Catalogue, tools: Tools, expectedCa: Option<string>, d: Deviation)
    ensures d in SensorDeviations(CompareSensors(desired, o.sensors, c, tools)) <==>
      d.kind in {SensorMissing, SensorOutdated, SensorDrifted, SensorUnmanaged} && IsWrong(d.kind, d.ref, desired, o, c, tools, expectedCa)
  {
    hide WantedStatus, CompareSensors, SensorDeviations, SensorDeviation;
    var rows := CompareSensors(desired, o.sensors, c, tools);
    SensorsJudged(rows, d);
    forall x ensures x in rows <==>
      || (exists w :: w in desired.sensors && x == Comparison(w.name, WantedStatus(w, o.sensors, c, tools)))
      || (exists row :: row in o.sensors && row.name !in Names(desired.sensors) && x == Comparison(row.name, Status.Unmanaged))
    {
      RowIsListedExactly(desired, o.sensors, c, tools, x);
    }
    forall w ensures WantedStatus(w, o.sensors, c, tools) == Absent <==> forall row :: row in o.sensors ==> row.name != w.name {
      StatusExactly(w, o.sensors, c, tools);
    }
    forall w ensures WantedStatus(w, o.sensors, c, tools) != Status.Unmanaged {
      StatusExactly(w, o.sensors, c, tools);
    }
    forall x ensures d in SensorDeviation(x) <==> JudgedAs(x, d) {
      JudgedExactly(x, d);
    }
    if JudgedAs(Comparison(d.ref, StatusOf(d.kind)), d) {
      assert forall x :: JudgedAs(x, d) <==> x == Comparison(d.ref, StatusOf(d.kind));
    }
  }

  function StatusOf(kind: Kind): Status {
    match kind
    case SensorMissing => Absent
    case SensorOutdated => Outdated
    case SensorDrifted => Drifted
    case _ => Status.Unmanaged
  }

  predicate JudgedAs(x: Comparison, d: Deviation) {
    && d.ref == x.name
    && (|| (d.kind.SensorMissing? && x.status == Absent)
        || (d.kind.SensorOutdated? && x.status == Outdated)
        || (d.kind.SensorDrifted? && x.status == Drifted)
        || (d.kind.SensorUnmanaged? && x.status == Status.Unmanaged))
  }

  lemma JudgedExactly(x: Comparison, d: Deviation)
    ensures d in SensorDeviation(x) <==> JudgedAs(x, d)
  {
  }

  lemma QuietFound(desired: DesiredState, o: ObservedState, c: Catalogue, tools: Tools, expectedCa: Option<string>, d: Deviation)
    ensures d in QuietFailures(o.sensors, c.needsInterface) <==>
      d.kind in {InterfaceMissing, HelperInactive} && IsWrong(d.kind, d.ref, desired, o, c, tools, expectedCa)
  {
    hide QuietFailures;
    QuietHeard(o.sensors, c.needsInterface, d);
  }

  /** A finding is raised exactly for what is wrong; for a probe that does not answer there
      is none. */
  lemma FoundExactly(
      desired: DesiredState, o: ObservedState, c: Catalogue, tools: Tools, expectedCa: Option<string>, kind: Kind, ref: string)
    ensures Deviation(kind, ref) in FindDeviations(desired, o, c, tools, expectedCa)
            <==> o.reachable && IsWrong(kind, ref, desired, o, c, tools, expectedCa)
  {
    hide ProbeDeviations, SensorDeviations, QuietFailures, CompareSensors, IsWrong;
    if o.reachable {
      hide FindDeviations;
      var d := Deviation(kind, ref);
      FoundUnsorted(desired, o, c, tools, expectedCa, d);
      ProbeFound(desired, o, c, tools, expectedCa, d);
      SensorFound(desired, o, c, tools, expectedCa, d);
      QuietFound(desired, o, c, tools, expectedCa, d);
    }
  }

  predicate Critical(kind: Kind) {
    kind in {ServiceInactive, CaMissing, CaMismatched}
  }

  predicate OfNote(kind: Kind) {
    kind in {NameMismatch, SensorUnmanaged}
  }

  /** What keeps a probe from working comes first, what is only worth noting last. */
  lemma FindingsInOrder(desired: DesiredState, o: ObservedState, c: Catalogue, tools: Tools, expectedCa: Option<string>)
    ensures var found := FindDeviations(desired, o, c, tools, expectedCa);
            forall i, j :: 0 <= i < j < |found| ==>
              && (Critical(found[j].kind) ==> Critical(found[i].kind))
              && (OfNote(found[i].kind) ==> OfNote(found[j].kind))
  {
    if o.reachable {
      var found := FindDeviations(desired, o, c, tools, expectedCa);
      SortedOrders(UnsortedDeviations(desired, o, c, tools, expectedCa), SeverityBefore);
      hide UnsortedDeviations, Sorted;
      forall i, j | 0 <= i < j < |found|
        ensures Critical(found[j].kind) ==> Critical(found[i].kind)
        ensures OfNote(found[i].kind) ==> OfNote(found[j].kind)
      {
        assert !SeverityBefore(found[j], found[i]);
      }
    }
  }
}
