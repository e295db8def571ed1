/** A probe's inventory file: one full writer and three partial ones. */
module ProbeEnv {
  import opened Prelude
  import opened EnvFile
  import ProbeConfig

  /** What a configuration knows about the probe. */
  datatype Fields = Fields(
    username: string,
    sshHost: string,
    sshPort: string,
    pending: string,
    probeId: string,
    accessKey: string,
    probeName: string)

  datatype Write =
    | Inventory(fields: Fields)
    | Overlay(address: string, publicKey: string, mode: string, lastState: string)
    | ClearOverlay
    | NatsHost(host: string)

  /** The full rewrite's own keys. */
  function Own(f: Fields): seq<Entry> {
    [Entry("NATS_USERNAME", f.username), Entry("SSH_HOST", f.sshHost), Entry("SSH_PORT", f.sshPort),
     Entry("PENDING_TRANSACTION", f.pending), Entry("PROBE_ID", f.probeId), Entry("ACCESS_KEY", f.accessKey),
     Entry("PROBE_NAME", f.probeName)]
  }

  const CARRIED := ["OVERLAY_ADDRESS", "OVERLAY_PUBLIC_KEY", "OVERLAY_MODE", "OVERLAY_LAST_STATE", "NATS_HOST_OVERRIDE"]

  function ValueOr(found: Option<string>): string {
    if found.Some? then found.value else ""
  }

  /** The value of a key, empty where it is not set. */
  function Get(values: map<string, string>, key: string): string {
    ValueOr(Lookup(values, key))
  }

  function Carrying(keys: seq<string>, values: map<string, string>): seq<Entry> {
    if keys == [] then [] else [Entry(keys[0], Get(values, keys[0]))] + Carrying(keys[1..], values)
  }

  /** The keys a rewrite must not drop, left out where none of them is set. */
  function Carried(values: map<string, string>): seq<Entry> {
    if forall k :: k in CARRIED ==> Get(values, k) == "" then [] else Carrying(CARRIED, values)
  }

  function Updates(w: Write): seq<Entry>
    requires !w.Inventory?
  {
    match w
    case Overlay(address, publicKey, mode, lastState) =>
      [Entry("OVERLAY_ADDRESS", address), Entry("OVERLAY_PUBLIC_KEY", publicKey), Entry("OVERLAY_MODE", mode),
       Entry("OVERLAY_LAST_STATE", lastState)]
    case ClearOverlay =>
      [Entry("OVERLAY_ADDRESS", ""), Entry("OVERLAY_PUBLIC_KEY", ""), Entry("OVERLAY_MODE", "off"),
       Entry("OVERLAY_LAST_STATE", "")]
    case NatsHost(host) => [Entry("NATS_HOST_OVERRIDE", host)]
  }

  /** None is the missing file; a partial writer then refuses and writes nothing. */
  function Written(file: Option<string>, w: Write): Option<string> {
    if w.Inventory? then
      var values := if file.Some? then ValuesOf(Lines(file.value)) else map[];
      Some(Text(Render(Own(w.fields))) + Text(Render(Carried(values))))
    else if file.None? then None
    else Some(Text(Rewritten(Lines(file.value), Updates(w))))
  }

  // --- The store -----------------------------------------------------------

  class InventoryFile {
    var content: Option<string>

    constructor ()
      ensures content == None
    {
      content := None;
    }

    method ReadValues() returns (values: map<string, string>)
      ensures values == if content.Some? then ValuesOf(Lines(content.value)) else map[]
    {
      values := map[];
      if content.None? {
        return;
      }
      var lines := Lines(content.value);
      for i := 0 to |lines|
        invariant values == ValuesOf(lines[..i])
      {
        assert lines[..i + 1][..i] == lines[..i];
        var entry := ParseLine(lines[i]);
        if entry.Some? {
          values := values[entry.value.key := entry.value.value];
        }
      }
      assert lines[..|lines|] == lines;
    }

    method WriteInventory(fields: Fields)
      modifies this
      ensures content == Written(old(content), Inventory(fields))
    {
      var values := ReadValues();
      content := Some(Text(Render(Own(fields))) + Text(Render(Carried(values))));
    }

    /** False where the probe has no inventory. */
    method UpdateValues(w: Write) returns (found: bool)
      requires !w.Inventory?
      modifies this
      ensures found == old(content).Some?
      ensures content == Written(old(content), w)
    {
      if content.None? {
        return false;
      }
      var lines := Lines(content.value);
      var remaining := Updates(w);
      var rewritten: seq<string> := [];
      hide Rewritten, Find, Without, EqualsAt, Updates, Lines;
      for i := 0 to |lines|
        invariant rewritten + Rewritten(lines[i..], remaining) == Rewritten(lines, Updates(w))
      {
        var line := lines[i];
        RewriteStep(rewritten, lines[i..], remaining);
        assert lines[i..][0] == line && lines[i..][1..] == lines[i + 1..];
        var at := EqualsAt(line);
        if at < |line| && Find(remaining, line[..at]).Some? {
          rewritten := rewritten + [line[..at] + "=" + Find(remaining, line[..at]).value];
          remaining := Without(remaining, line[..at]);
        } else {
          rewritten := rewritten + [line];
        }
      }
      RewrittenNothing(remaining);
      assert lines[|lines|..] == [];
      content := Some(Text(rewritten + Render(remaining)));
      return true;
    }
  }

  lemma RewrittenNothing(updates: seq<Entry>)
    ensures Rewritten([], updates) == Render(updates)
  {
  }

  // --- Over any sequence of writes -----------------------------------------

  function Reach(writes: seq<Write>): Option<string> {
    if writes == [] then None else Written(Reach(writes[..|writes| - 1]), writes[|writes| - 1])
  }

  function Entries(w: Write): seq<Entry> {
    if w.Inventory? then Own(w.fields) else Updates(w)
  }

  /** Every value it writes is stripped and on one line. */
  predicate CleanWrite(w: Write) {
    forall e :: e in Entries(w) ==> Clean(e.value)
  }

  /** No value it writes has anything but space behind its first line break. */
  predicate TameWrite(w: Write) {
    forall e :: e in Entries(w) ==> Tame(e.value)
  }

  /** What the write itself sets this key to. */
  function Sets(w: Write, key: string): Option<string> {
    Find(Entries(w), key)
  }

  /** The value the last writer of this key gave it; a partial write before there is a
      file counts for nothing. */
  function LastWritten(writes: seq<Write>, key: string): string {
    if writes == [] then ""
    else
      var before, last := writes[..|writes| - 1], writes[|writes| - 1];
      if Sets(last, key).Some? && (last.Inventory? || Reach(before).Some?) then Sets(last, key).value
      else LastWritten(before, key)
  }

  /** Blank lines aside, the file is entries with distinct keys, each on its own line. */
  ghost predicate Holds(file: Option<string>, entries: seq<Entry>) {
    && file.Some?
    && Solid(Lines(file.value)) == Render(entries)
    && Unique(entries)
    && GoodEntries(entries)
  }

  lemma {:induction false} FindConcat(a: seq<Entry>, b: seq<Entry>, key: string)
    ensures Find(a + b, key) == if Find(a, key).Some? then Find(a, key) else Find(b, key)
  {
    if a == [] {
      assert a + b == b;
    } else {
      FindConcat(a[1..], b, key);
      assert (a + b)[0] == a[0] && (a + b)[1..] == a[1..] + b;
    }
  }

  lemma {:induction false} UniqueConcat(a: seq<Entry>, b: seq<Entry>)
    requires Unique(a) && Unique(b)
    requires forall e :: e in a ==> Find(b, e.key).None?
    ensures Unique(a + b)
  {
    if a == [] {
      assert a + b == b;
    } else {
      assert forall e :: e in a[1..] ==> e in a;
      UniqueConcat(a[1..], b);
      assert a[0] in a;
      FindConcat(a[1..], b, a[0].key);
      assert (a + b)[0] == a[0] && (a + b)[1..] == a[1..] + b;
    }
  }

  lemma {:induction false} CarryingFinds(keys: seq<string>, values: map<string, string>, key: string)
    ensures Find(Carrying(keys, values), key) == if key in keys then Some(Get(values, key)) else None
  {
    if keys != [] {
      CarryingFinds(keys[1..], values, key);
    }
  }

  lemma {:induction false} CarryingIsUnique(keys: seq<string>, values: map<string, string>)
    requires Distinct(keys)
    ensures Unique(Carrying(keys, values))
  {
    if keys != [] {
      DistinctCons(keys);
      CarryingIsUnique(keys[1..], values);
      CarryingFinds(keys[1..], values, keys[0]);
    }
  }

  lemma {:induction false} CarryingIsGood(keys: seq<string>, values: map<string, string>)
    requires forall k :: k in keys ==> GoodKey(k) && OneLine(Get(values, k))
    ensures GoodEntries(Carrying(keys, values))
  {
    if keys != [] {
      assert keys[0] in keys;
      CarryingIsGood(keys[1..], values);
    }
  }

  // --- The keys ------------------------------------------------------------

  /** Enough to tell the twelve keys apart. */
  function Mark(key: string): (int, char) {
    (|key|, if |key| >= 4 then key[|key| - 4] else ' ')
  }

  lemma Marks()
    ensures Mark("NATS_USERNAME") == (13, 'N') && Mark("SSH_HOST") == (8, 'H') && Mark("SSH_PORT") == (8, 'P')
    ensures Mark("PENDING_TRANSACTION") == (19, 'T') && Mark("PROBE_ID") == (8, 'E') && Mark("ACCESS_KEY") == (10, '_')
    ensures Mark("PROBE_NAME") == (10, 'N') && Mark("OVERLAY_ADDRESS") == (15, 'R') && Mark("OVERLAY_PUBLIC_KEY") == (18, '_')
    ensures Mark("OVERLAY_MODE") == (12, 'M') && Mark("OVERLAY_LAST_STATE") == (18, 'T') && Mark("NATS_HOST_OVERRIDE") == (18, 'R')
  {
  }

  const OWN := ["NATS_USERNAME", "SSH_HOST", "SSH_PORT", "PENDING_TRANSACTION", "PROBE_ID", "ACCESS_KEY", "PROBE_NAME"]

  lemma OwnKeysAreGood()
    ensures forall k :: k in OWN ==> GoodKey(k)
  {
    assert GoodKey("NATS_USERNAME") && GoodKey("SSH_HOST") && GoodKey("SSH_PORT") && GoodKey("PENDING_TRANSACTION");
    assert GoodKey("PROBE_ID") && GoodKey("ACCESS_KEY") && GoodKey("PROBE_NAME");
  }

  lemma CarriedKeysAreGood()
    ensures forall k :: k in CARRIED ==> GoodKey(k)
  {
    assert GoodKey("OVERLAY_ADDRESS") && GoodKey("OVERLAY_PUBLIC_KEY") && GoodKey("OVERLAY_MODE");
    assert GoodKey("OVERLAY_LAST_STATE") && GoodKey("NATS_HOST_OVERRIDE");
  }

  lemma KeysDiffer()
    ensures Distinct(CARRIED)
    ensures forall k :: k in OWN ==> k !in CARRIED
  {
    Marks();
  }

  function KeysOf(w: Write): seq<string> {
    match w
    case Inventory(_) => OWN
    case NatsHost(_) => [CARRIED[4]]
    case _ => CARRIED[..4]
  }

  lemma EntryKeys(w: Write)
    ensures Unique(Entries(w))
    ensures forall k :: k !in KeysOf(w) ==> Find(Entries(w), k).None?
    ensures forall e :: e in Entries(w) ==> e.key in KeysOf(w)
  {
    Marks();
    hide Mark;
    UniqueByKeys(Entries(w), KeysOf(w));
  }

  // --- The invariant -------------------------------------------------------

  /** Only the twelve keys. */
  ghost predicate Known(entries: seq<Entry>) {
    forall e :: e in entries ==> e.key in OWN || e.key in CARRIED
  }

  lemma {:induction false} UnknownIsNotFound(entries: seq<Entry>, key: string)
    requires Known(entries) && key !in OWN && key !in CARRIED
    ensures Find(entries, key).None?
  {
    if Find(entries, key).Some? {
      FoundIsMember(entries, key);
    }
  }

  /** What a file of entries reads as. */
  lemma HoldsReads(file: Option<string>, entries: seq<Entry>, key: string)
    requires Holds(file, entries)
    ensures Lookup(ValuesOf(Lines(file.value)), key) == StrippedValue(Find(entries, key))
  {
    ValuesOfSolid(Lines(file.value));
    RenderedReads(entries, key);
  }

  lemma CarriedFinds(values: map<string, string>, key: string)
    ensures ValueOr(Find(Carried(values), key)) == if key in CARRIED then Get(values, key) else ""
    ensures forall e :: e in Carried(values) ==> e.key in CARRIED
  {
    CarryingFinds(CARRIED, values, key);
    CarryingKeys(CARRIED, values);
  }

  lemma {:induction false} CarryingKeys(keys: seq<string>, values: map<string, string>)
    ensures forall e :: e in Carrying(keys, values) ==> e.key in keys
  {
    if keys != [] {
      CarryingKeys(keys[1..], values);
    }
  }

  lemma CarriedIsGood(values: map<string, string>)
    requires forall k :: k in values ==> Clean(values[k])
    ensures GoodEntries(Carried(values)) && Unique(Carried(values))
  {
    CarriedKeysAreGood();
    KeysDiffer();
    CarryingIsUnique(CARRIED, values);
    CarryingIsGood(CARRIED, values);
  }

  lemma EntriesAreGood(w: Write)
    requires TameWrite(w)
    ensures GoodUpdates(Entries(w)) && Unique(Entries(w)) && Known(Entries(w))
    ensures forall e :: e in Entries(w) ==> if w.Inventory? then e.key in OWN else e.key in CARRIED
  {
    EntryKeys(w);
    OwnKeysAreGood();
    CarriedKeysAreGood();
    hide GoodKey, Tame, Unique, Find;
  }

  /** What a full rewrite leaves. */
  function Rewrite(f: Fields, values: map<string, string>): seq<Entry> {
    HeadEntries(Own(f) + Carried(values))
  }

  lemma GoodAsUpdates(entries: seq<Entry>)
    requires GoodEntries(entries)
    ensures GoodUpdates(entries)
  {
    forall e | e in entries ensures Tame(e.value) {
      HeadIsOneLine(e.value);
    }
  }

  lemma HeadsAreGood(entries: seq<Entry>)
    requires GoodUpdates(entries) && Known(entries)
    ensures GoodEntries(HeadEntries(entries)) && Known(HeadEntries(entries))
    ensures Unique(entries) ==> Unique(HeadEntries(entries))
  {
    HeadEntriesKeep(entries);
    hide GoodKey, OneLine, Tame;
  }

  lemma RewriteHolds(file: Option<string>, values: map<string, string>, f: Fields)
    requires TameWrite(Inventory(f))
    requires values == if file.Some? then ValuesOf(Lines(file.value)) else map[]
    ensures Holds(Written(file, Inventory(f)), Rewrite(f, values)) && Known(Rewrite(f, values))
  {
    hide Own, Carried, Unique, Find, GoodKey, Clean, ValuesOf, Text, Render, Tame, OneLine, HeadEntries, Lines, Solid, Heads;
    EntriesAreGood(Inventory(f));
    if file.Some? {
      ReadValuesAreClean(file.value);
    }
    CarriedIsGood(values);
    GoodAsUpdates(Carried(values));
    CarriedIsApart(f, values);
    var all := Own(f) + Carried(values);
    UniqueConcat(Own(f), Carried(values));
    RenderConcat(Own(f), Carried(values));
    TextConcat(Render(Own(f)), Render(Carried(values)));
    RenderedTame(all);
    LinesOfTame(Render(all));
    RenderedHeads(all);
    HeadsAreGood(all);
    RenderedHeads(HeadEntries(all));
  }

  lemma CarriedIsApart(f: Fields, values: map<string, string>)
    ensures forall e :: e in Own(f) ==> Find(Carried(values), e.key).None?
    ensures forall e :: e in Carried(values) ==> e.key in CARRIED
  {
    CarriedFinds(values, "");
    EntryKeys(Inventory(f));
    KeysDiffer();
    hide Own, Carried;
    forall e | e in Own(f) ensures Find(Carried(values), e.key).None? {
      if Find(Carried(values), e.key).Some? {
        FoundIsMember(Carried(values), e.key);
      }
    }
  }

  lemma RewriteSetsOwn(f: Fields, values: map<string, string>, key: string)
    requires TameWrite(Inventory(f)) && Find(Own(f), key).Some?
    ensures Strip(ValueOr(Find(Rewrite(f, values), key))) == Strip(Find(Own(f), key).value)
  {
    FoundIsMember(Own(f), key);
    hide Own, Find, Carried;
    FindConcat(Own(f), Carried(values), key);
    HeadEntriesFind(Own(f) + Carried(values), key);
    HeadIsOneLine(Find(Own(f), key).value);
  }

  /** The carried keys keep what they read, every other key is gone. */
  lemma RewriteCarries(f: Fields, values: map<string, string>, key: string)
    requires Find(Own(f), key).None? && forall k :: k in values ==> Clean(values[k])
    ensures ValueOr(Find(Rewrite(f, values), key)) == if key in CARRIED then Get(values, key) else ""
  {
    CarriedIsGood(values);
    CarriedFinds(values, key);
    if Find(Carried(values), key).Some? {
      FoundIsMember(Carried(values), key);
      HeadIsOneLine(Find(Carried(values), key).value);
    }
    hide Own, Find, Carried, GoodKey, Unique, Clean;
    FindConcat(Own(f), Carried(values), key);
    HeadEntriesFind(Own(f) + Carried(values), key);
  }

  /** A full rewrite sets its own seven keys and keeps the five others as they read. */
  lemma RewriteKeeps(file: Option<string>, entries: seq<Entry>, f: Fields, key: string)
    requires TameWrite(Inventory(f)) && Known(entries)
    requires if file.Some? then Holds(file, entries) else entries == []
    ensures var values := if file.Some? then ValuesOf(Lines(file.value)) else map[];
            Strip(ValueOr(Find(Rewrite(f, values), key)))
            == Strip(ValueOr(if Find(Own(f), key).Some? then Find(Own(f), key) else Find(entries, key)))
  {
    hide Rewrite, Own, Strip, ValuesOf, Lines, Holds, Known, Clean, Stripped;
    var values := if file.Some? then ValuesOf(Lines(file.value)) else map[];
    if file.Some? {
      ReadValuesAreClean(file.value);
      HoldsReads(file, entries, key);
    }
    OwnIsFound(f, key);
    var before := ValueOr(Find(entries, key));
    StripMeaning(before);
    StripMeaning(Strip(before));
    if Find(Own(f), key).Some? {
      RewriteSetsOwn(f, values, key);
    } else {
      RewriteCarries(f, values, key);
      if key !in CARRIED {
        UnknownIsNotFound(entries, key);
      }
    }
  }

  lemma OwnIsFound(f: Fields, key: string)
    ensures key in OWN <==> Find(Own(f), key).Some?
  {
    EntryKeys(Inventory(f));
    hide Find, Unique;
    if key in OWN {
      var i :| 0 <= i < |OWN| && OWN[i] == key;
      assert Own(f)[i].key == key;
      MemberIsFound(Own(f), i);
    }
  }

  lemma {:induction false} MemberIsFound(entries: seq<Entry>, i: nat)
    requires i < |entries|
    ensures Find(entries, entries[i].key).Some?
    ensures Unique(entries) ==> Find(entries, entries[i].key) == Some(entries[i].value)
  {
    if i > 0 {
      MemberIsFound(entries[1..], i - 1);
    }
  }

  lemma UpdateHolds(file: Option<string>, entries: seq<Entry>, w: Write)
    requires Holds(file, entries) && Known(entries) && TameWrite(w) && !w.Inventory?
    ensures Holds(Written(file, w), Overridden(entries, HeadEntries(Updates(w))))
    ensures Known(Overridden(entries, HeadEntries(Updates(w))))
  {
    EntriesAreGood(w);
    forall e | e in entries ensures '=' !in e.key {}
    var updates, lines := Updates(w), Lines(file.value);
    hide Overridden, Unique, GoodKey, Updates, Find, OneLine, Tame, Lines, Solid, Heads, Rewritten, Render, HeadEntries;
    PiecesAreOneLine(file.value);
    RewrittenSolid(lines, updates);
    LinesOfTame(Rewritten(lines, updates));
    HeadsAreGood(updates);
    RewrittenIsOverridden(entries, HeadEntries(updates));
    OverriddenIsUnique(entries, HeadEntries(updates));
    OverriddenIsGood(entries, HeadEntries(updates));
    OverriddenKeys(entries, HeadEntries(updates));
  }

  lemma {:induction false} OverriddenKeys(entries: seq<Entry>, updates: seq<Entry>)
    requires Known(entries) && Known(updates)
    ensures Known(Overridden(entries, updates))
    decreases |entries|
  {
    if entries != [] {
      assert entries[0] in entries;
      WithoutKeeps(updates, entries[0].key);
      OverriddenKeys(entries[1..], updates);
      OverriddenKeys(entries[1..], Without(updates, entries[0].key));
    }
  }

  /** The i-th write is a full one, or there is a file for it. */
  predicate TakesEffect(writes: seq<Write>, i: nat)
    requires i < |writes|
  {
    writes[i].Inventory? || Reach(writes[..i]).Some?
  }

  ghost predicate AllTame(writes: seq<Write>) {
    forall i :: 0 <= i < |writes| && TakesEffect(writes, i) ==> TameWrite(writes[i])
  }

  ghost predicate AllClean(writes: seq<Write>) {
    forall i :: 0 <= i < |writes| && TakesEffect(writes, i) ==> CleanWrite(writes[i])
  }

  lemma CleanIsTame(writes: seq<Write>)
    requires AllClean(writes)
    ensures AllTame(writes)
  {
    forall i, e | 0 <= i < |writes| && TakesEffect(writes, i) && e in Entries(writes[i]) ensures Tame(e.value) {
      HeadIsOneLine(e.value);
    }
  }

  lemma FrontIsTame(writes: seq<Write>)
    requires writes != [] && AllTame(writes)
    ensures AllTame(writes[..|writes| - 1])
  {
    var front := writes[..|writes| - 1];
    forall i | 0 <= i < |front| ensures front[i] == writes[i] && front[..i] == writes[..i] {}
    forall i | 0 <= i < |front| && TakesEffect(front, i) ensures TameWrite(front[i]) {
      assert TakesEffect(writes, i);
    }
  }

  /** Find under a partial update, stripped. */
  lemma UpdateFinds(entries: seq<Entry>, w: Write, key: string)
    requires Unique(entries) && !w.Inventory? && TameWrite(w)
    ensures Strip(ValueOr(Find(Overridden(entries, HeadEntries(Updates(w))), key)))
            == Strip(ValueOr(if Sets(w, key).Some? then Sets(w, key) else Find(entries, key)))
  {
    OverriddenFinds(entries, HeadEntries(Updates(w)), key);
    HeadEntriesFind(Updates(w), key);
    if Sets(w, key).Some? {
      FoundIsMember(Updates(w), key);
      HeadIsOneLine(Sets(w, key).value);
    }
  }

  /** In every reachable file the keys are distinct, each on one line, and every key has
      its last writer's value. */
  lemma {:induction false} ReachHolds(writes: seq<Write>) returns (entries: seq<Entry>)
    requires AllTame(writes)
    ensures Known(entries)
    ensures if Reach(writes).Some? then Holds(Reach(writes), entries) else entries == []
    ensures forall key :: Strip(ValueOr(Find(entries, key))) == Strip(LastWritten(writes, key))
  {
    hide TameWrite, Known, Holds, Find, Strip, HeadEntries, Overridden, Rewrite, Own, Carried, Updates, Render, Text,
         Lines, ValuesOf, Rewritten, Unique;
    if writes == [] {
      entries := [];
      NothingFound();
    } else {
      var front, w := writes[..|writes| - 1], writes[|writes| - 1];
      FrontIsTame(writes);
      var before := ReachHolds(front);
      var file := Reach(front);
      assert TakesEffect(writes, |writes| - 1) ==> TameWrite(w);
      if w.Inventory? {
        var values := if file.Some? then ValuesOf(Lines(file.value)) else map[];
        entries := Rewrite(w.fields, values);
        RewriteHolds(file, values, w.fields);
        forall key ensures Strip(ValueOr(Find(entries, key))) == Strip(LastWritten(writes, key)) {
          RewriteKeeps(file, before, w.fields, key);
        }
      } else if file.Some? {
        entries := Overridden(before, HeadEntries(Updates(w)));
        UpdateHolds(file, before, w);
        forall key ensures Strip(ValueOr(Find(entries, key))) == Strip(LastWritten(writes, key)) {
          HoldsIsUnique(file, before);
          UpdateFinds(before, w, key);
        }
      } else {
        entries := before;
      }
    }
  }

  lemma NothingFound()
    ensures Known([]) && forall key :: Find([], key) == None
  {
  }

  lemma HoldsIsUnique(file: Option<string>, entries: seq<Entry>)
    requires Holds(file, entries)
    ensures Unique(entries)
  {
  }

  /** What a key reads as. */
  function Reads(writes: seq<Write>, key: string): string
    requires Reach(writes).Some?
  {
    Get(ValuesOf(Lines(Reach(writes).value)), key)
  }

  /** Over any sequence of writes, reading the file back gives every key the value its own
      last writer gave it, stripped, whatever the other writers did in between and
      whatever line breaks stand at the ends of values. */
  lemma EveryKeyReadsItsLastWriter(writes: seq<Write>, key: string)
    requires AllTame(writes)
    ensures Reach(writes).Some? ==> Reads(writes, key) == Strip(LastWritten(writes, key))
  {
    var entries := ReachHolds(writes);
    if Reach(writes).Some? {
      HoldsReads(Reach(writes), entries, key);
    }
  }

  /** A full rewrite writes the five other keys all together, where any of them is set, and
      none of them elsewhere: such a file has the seven lines it always had. */
  lemma CarriedTogether(values: map<string, string>)
    ensures (forall k :: k in CARRIED ==> k !in values || values[k] == "") ==> Carried(values) == []
    ensures (exists k :: k in CARRIED && k in values && values[k] != "") ==> Carried(values) == Carrying(CARRIED, values)
    ensures |Carrying(CARRIED, values)| == 5
  {
    CarryingLength(CARRIED, values);
  }

  lemma {:induction false} CarryingLength(keys: seq<string>, values: map<string, string>)
    ensures |Carrying(keys, values)| == |keys|
    ensures forall i :: 0 <= i < |keys| ==> Carrying(keys, values)[i].key == keys[i]
  {
    if keys != [] {
      CarryingLength(keys[1..], values);
    }
  }

  // --- The record that is read back ----------------------------------------

  datatype Record = Record(
    username: string,
    sshHost: string,
    sshPort: string,
    pending: Option<string>,
    probeId: Option<string>,
    accessKeyPresent: bool,
    probeName: Option<string>,
    overlayAddress: Option<string>,
    overlayKey: Option<string>,
    overlayMode: string,
    overlayLastState: Option<string>,
    natsHost: Option<string>)

  function OrNone(value: string): Option<string> {
    if value == "" then None else Some(value)
  }

  /** An empty value is read as none, any other as itself. */
  lemma OrNoneExactly(value: string)
    ensures OrNone(value) == None <==> |value| == 0
    ensures |value| > 0 ==> OrNone(value) == Some(value)
  {
  }

  function RecordFrom(get: string -> string): Record {
    Record(
      get("NATS_USERNAME"),
      get("SSH_HOST"),
      get("SSH_PORT"),
      OrNone(get("PENDING_TRANSACTION")),
      OrNone(get("PROBE_ID")),
      get("ACCESS_KEY") != "",
      OrNone(get("PROBE_NAME")),
      OrNone(get("OVERLAY_ADDRESS")),
      OrNone(get("OVERLAY_PUBLIC_KEY")),
      if get("OVERLAY_MODE") == "" then "off" else get("OVERLAY_MODE"),
      OrNone(get("OVERLAY_LAST_STATE")),
      OrNone(get("NATS_HOST_OVERRIDE")))
  }

  /** What is read of the probe: nothing at all before its inventory is written. */
  function ReadProbe(file: Option<string>): Record {
    var values := if file.Some? then ValuesOf(Lines(file.value)) else map[];
    RecordFrom(key => Get(values, key))
  }

  /** What each write makes of the record: a configuration sets its seven fields, the
      overlay's and the server's writers theirs, and each leaves the others alone. */
  function Updated(r: Record, w: Write): Record {
    match w
    case Inventory(f) =>
      r.(username := f.username, sshHost := f.sshHost, sshPort := f.sshPort, pending := OrNone(f.pending),
         probeId := OrNone(f.probeId), accessKeyPresent := f.accessKey != "", probeName := OrNone(f.probeName))
    case Overlay(address, publicKey, mode, lastState) =>
      r.(overlayAddress := OrNone(address), overlayKey := OrNone(publicKey),
         overlayMode := if mode == "" then "off" else mode, overlayLastState := OrNone(lastState))
    case ClearOverlay => r.(overlayAddress := None, overlayKey := None, overlayMode := "off", overlayLastState := None)
    case NatsHost(host) => r.(natsHost := OrNone(host))
  }

  lemma OwnFieldsAreSet(f: Fields)
    ensures var w := Inventory(f);
      && Sets(w, "NATS_USERNAME") == Some(f.username) && Sets(w, "SSH_HOST") == Some(f.sshHost)
      && Sets(w, "SSH_PORT") == Some(f.sshPort) && Sets(w, "PENDING_TRANSACTION") == Some(f.pending)
      && Sets(w, "PROBE_ID") == Some(f.probeId) && Sets(w, "ACCESS_KEY") == Some(f.accessKey)
      && Sets(w, "PROBE_NAME") == Some(f.probeName)
    ensures forall k :: k in CARRIED ==> Sets(Inventory(f), k) == None
  {
    hide Find, Unique;
    EntryKeys(Inventory(f));
    KeysDiffer();
    var own := Own(f);
    forall i | 0 <= i < 7 ensures Find(own, own[i].key) == Some(own[i].value) {
      MemberIsFound(own, i);
    }
    assert own[0].key == "NATS_USERNAME" && own[1].key == "SSH_HOST" && own[2].key == "SSH_PORT";
    assert own[3].key == "PENDING_TRANSACTION" && own[4].key == "PROBE_ID" && own[5].key == "ACCESS_KEY";
    assert own[6].key == "PROBE_NAME";
  }

  lemma OverlayFieldsAreSet(w: Write)
    requires w.Overlay? || w.ClearOverlay?
    ensures Sets(w, "OVERLAY_ADDRESS") == Some(if w.Overlay? then w.address else "")
    ensures Sets(w, "OVERLAY_PUBLIC_KEY") == Some(if w.Overlay? then w.publicKey else "")
    ensures Sets(w, "OVERLAY_MODE") == Some(if w.Overlay? then w.mode else "off")
    ensures Sets(w, "OVERLAY_LAST_STATE") == Some(if w.Overlay? then w.lastState else "")
    ensures Sets(w, "NATS_HOST_OVERRIDE") == None && forall k :: k in OWN ==> Sets(w, k) == None
  {
    hide Find, Unique;
    EntryKeys(w);
    ApartFromOverlay();
    var updates := Updates(w);
    MemberIsFound(updates, 0);
    MemberIsFound(updates, 1);
    MemberIsFound(updates, 2);
    MemberIsFound(updates, 3);
  }

  lemma ApartFromOverlay()
    ensures "NATS_HOST_OVERRIDE" !in CARRIED[..4] && forall k :: k in OWN ==> k !in CARRIED[..4]
  {
    KeysDiffer();
    assert CARRIED[4] == "NATS_HOST_OVERRIDE";
    forall k | k in CARRIED[..4] ensures k in CARRIED && k != CARRIED[4] {
      var i :| 0 <= i < 4 && CARRIED[i] == k;
    }
  }

  lemma HostFieldIsSet(host: string)
    ensures Sets(NatsHost(host), "NATS_HOST_OVERRIDE") == Some(host)
    ensures forall k :: k in OWN || k in CARRIED[..4] ==> Sets(NatsHost(host), k) == None
  {
    hide Find, Unique;
    EntryKeys(NatsHost(host));
    KeysDiffer();
    MemberIsFound(Updates(NatsHost(host)), 0);
    assert CARRIED[4] in CARRIED;
    forall k | k in CARRIED[..4] ensures k != CARRIED[4] {
      var i :| 0 <= i < 4 && CARRIED[i] == k;
    }
  }

  /** The record after any clean writes is the one before the last of them, with that one's
      own fields set and no other touched; a partial write to a probe without an inventory
      does nothing. */
  lemma RecordFollowsTheWrites(writes: seq<Write>, w: Write)
    requires AllClean(writes + [w])
    ensures ReadProbe(Reach(writes + [w])) ==
      if w.Inventory? || Reach(writes).Some? then Updated(ReadProbe(Reach(writes)), w) else ReadProbe(None)
  {
    hide Reach, ReadProbe, RecordFrom, Updated, AllClean;
    var all := writes + [w];
    FrontIsClean(writes, w);
    ReadsLast(writes);
    ReadsLast(all);
    LastIsWritten(writes, w);
    if w.Inventory? || Reach(writes).Some? {
      RecordUpdated(key => LastWritten(writes, key), key => LastWritten(all, key), w);
    } else {
      StillNone(writes, w);
    }
  }

  lemma FrontIsClean(writes: seq<Write>, w: Write)
    requires AllClean(writes + [w])
    ensures AllClean(writes)
  {
    hide Reach, CleanWrite;
    var all := writes + [w];
    forall i | 0 <= i < |writes| && TakesEffect(writes, i) ensures CleanWrite(writes[i]) {
      assert all[i] == writes[i] && all[..i] == writes[..i];
      assert TakesEffect(all, i);
    }
  }

  lemma LastIsWritten(writes: seq<Write>, w: Write)
    ensures !w.Inventory? && Reach(writes).None? ==> forall key :: LastWritten(writes + [w], key) == LastWritten(writes, key)
    ensures w.Inventory? || Reach(writes).Some? ==>
      SetTo(key => LastWritten(writes, key), key => LastWritten(writes + [w], key), w)
  {
    hide Reach, Sets;
    var all := writes + [w];
    assert all[..|all| - 1] == writes && all[|all| - 1] == w;
  }

  lemma StillNone(writes: seq<Write>, w: Write)
    requires !w.Inventory? && Reach(writes).None?
    ensures Reach(writes + [w]).None?
  {
    var all := writes + [w];
    assert all[..|all| - 1] == writes && all[|all| - 1] == w;
  }

  ghost predicate SetTo(before: string -> string, after: string -> string, w: Write) {
    forall key :: after(key) == if Sets(w, key).Some? then Sets(w, key).value else before(key)
  }

  lemma RecordUpdated(before: string -> string, after: string -> string, w: Write)
    requires SetTo(before, after, w)
    ensures RecordFrom(after) == Updated(RecordFrom(before), w)
  {
    hide RecordFrom, Updated, SetTo;
    match w
    case Inventory(f) => InventoryUpdates(before, after, f);
    case NatsHost(host) => HostUpdates(before, after, host);
    case _ => OverlayUpdates(before, after, w);
  }

  lemma InventoryUpdates(before: string -> string, after: string -> string, f: Fields)
    requires SetTo(before, after, Inventory(f))
    ensures RecordFrom(after) == Updated(RecordFrom(before), Inventory(f))
  {
    hide Sets;
    InCarried();
    OwnFieldsAreSet(f);
  }

  lemma HostUpdates(before: string -> string, after: string -> string, host: string)
    requires SetTo(before, after, NatsHost(host))
    ensures RecordFrom(after) == Updated(RecordFrom(before), NatsHost(host))
  {
    hide Sets;
    InCarried();
    HostFieldIsSet(host);
  }

  lemma OverlayUpdates(before: string -> string, after: string -> string, w: Write)
    requires (w.Overlay? || w.ClearOverlay?) && SetTo(before, after, w)
    ensures RecordFrom(after) == Updated(RecordFrom(before), w)
  {
    hide Sets;
    InCarried();
    OverlayFieldsAreSet(w);
  }

  /** What the record has of the file is what was written last. */
  lemma ReadsLast(writes: seq<Write>)
    requires AllClean(writes)
    ensures ReadProbe(Reach(writes)) == RecordFrom(key => LastWritten(writes, key))
  {
    hide ValuesOf, Lines, Find, Clean;
    if Reach(writes).Some? {
      assert writes[..|writes|] == writes;
      CleanReadsBack(writes, |writes|);
      SameRecord(key => Get(ValuesOf(Lines(Reach(writes).value)), key), key => LastWritten(writes, key));
    } else {
      NothingWritten(writes);
      SameRecord(key => Get(map[], key), key => LastWritten(writes, key));
    }
  }

  lemma SameRecord(a: string -> string, b: string -> string)
    requires forall key :: a(key) == b(key)
    ensures RecordFrom(a) == RecordFrom(b)
  {
  }

  lemma {:induction false} NothingWritten(writes: seq<Write>)
    requires Reach(writes) == None
    ensures forall key :: LastWritten(writes, key) == ""
  {
    if writes != [] {
      var front, last := writes[..|writes| - 1], writes[|writes| - 1];
      assert !last.Inventory? && Reach(front) == None;
      NothingWritten(front);
    }
  }

  lemma InCarried()
    ensures CARRIED[..4] == ["OVERLAY_ADDRESS", "OVERLAY_PUBLIC_KEY", "OVERLAY_MODE", "OVERLAY_LAST_STATE"]
    ensures "NATS_HOST_OVERRIDE" in CARRIED && forall k :: k in CARRIED[..4] ==> k in CARRIED
    ensures "OVERLAY_ADDRESS" in CARRIED[..4] && "OVERLAY_PUBLIC_KEY" in CARRIED[..4]
    ensures "OVERLAY_MODE" in CARRIED[..4] && "OVERLAY_LAST_STATE" in CARRIED[..4]
    ensures "NATS_USERNAME" in OWN && "SSH_HOST" in OWN && "SSH_PORT" in OWN && "PENDING_TRANSACTION" in OWN
    ensures "PROBE_ID" in OWN && "ACCESS_KEY" in OWN && "PROBE_NAME" in OWN
  {
    assert CARRIED[4] == "NATS_HOST_OVERRIDE";
    assert CARRIED[0] == "OVERLAY_ADDRESS" && CARRIED[1] == "OVERLAY_PUBLIC_KEY";
    assert CARRIED[2] == "OVERLAY_MODE" && CARRIED[3] == "OVERLAY_LAST_STATE";
    assert OWN[0] == "NATS_USERNAME" && OWN[1] == "SSH_HOST" && OWN[2] == "SSH_PORT" && OWN[3] == "PENDING_TRANSACTION";
    assert OWN[4] == "PROBE_ID" && OWN[5] == "ACCESS_KEY" && OWN[6] == "PROBE_NAME";
  }

  lemma {:induction false} LastWrittenIsClean(writes: seq<Write>, key: string)
    requires AllClean(writes)
    ensures Clean(LastWritten(writes, key))
  {
    if writes != [] {
      var front, last := writes[..|writes| - 1], writes[|writes| - 1];
      forall i | 0 <= i < |front| ensures front[i] == writes[i] && front[..i] == writes[..i] {}
      forall i | 0 <= i < |front| && TakesEffect(front, i) ensures CleanWrite(front[i]) {
        assert TakesEffect(writes, i);
      }
      LastWrittenIsClean(front, key);
      if Sets(last, key).Some? && (last.Inventory? || Reach(front).Some?) {
        assert TakesEffect(writes, |writes| - 1);
        FoundIsMember(Entries(last), key);
      }
    }
  }

  /** Every key reads exactly as it was last written. */
  ghost predicate ReadsAsWritten(writes: seq<Write>) {
    Reach(writes).Some? ==> forall key :: Reads(writes, key) == LastWritten(writes, key)
  }

  /** All twelve keys read exactly as they were written after every write of a sequence, if
      and only if every value that reached the file was stripped and on one line. */
  lemma ReadsBackExactly(writes: seq<Write>)
    ensures (forall n :: 0 <= n <= |writes| ==> ReadsAsWritten(writes[..n])) <==> AllClean(writes)
  {
    if AllClean(writes) {
      forall n | 0 <= n <= |writes| ensures ReadsAsWritten(writes[..n]) {
        CleanReadsBack(writes, n);
      }
    }
    if forall n :: 0 <= n <= |writes| ==> ReadsAsWritten(writes[..n]) {
      forall i | 0 <= i < |writes| && TakesEffect(writes, i) ensures CleanWrite(writes[i]) {
        OneWriteReadsBack(writes, i);
      }
    }
  }

  lemma CleanReadsBack(writes: seq<Write>, n: nat)
    requires AllClean(writes) && n <= |writes|
    ensures ReadsAsWritten(writes[..n])
  {
    var head := writes[..n];
    forall i | 0 <= i < n ensures head[i] == writes[i] && head[..i] == writes[..i] {}
    forall i | 0 <= i < n && TakesEffect(head, i) ensures CleanWrite(head[i]) {
      assert TakesEffect(writes, i);
    }
    CleanIsTame(head);
    if Reach(head).Some? {
      forall key ensures Reads(head, key) == LastWritten(head, key) {
        EveryKeyReadsItsLastWriter(head, key);
        LastWrittenIsClean(head, key);
        StripMeaning(LastWritten(head, key));
      }
    }
  }

  /** If all keys read as written right after a write, every value of that write is clean:
      nothing that is read back is anything else. */
  lemma OneWriteReadsBack(writes: seq<Write>, i: nat)
    requires i < |writes| && TakesEffect(writes, i) && ReadsAsWritten(writes[..i + 1])
    ensures CleanWrite(writes[i])
  {
    var all, w := writes[..i + 1], writes[i];
    assert all[..i] == writes[..i] && all[|all| - 1] == w;
    ReadValuesAreClean(Reach(all).value);
    EntryKeys(w);
    forall e | e in Entries(w) ensures Clean(e.value) {
      UniqueFinds(Entries(w), e);
      assert LastWritten(all, e.key) == e.value;
      assert Reads(all, e.key) == e.value;
    }
  }

  lemma {:induction false} UniqueFinds(entries: seq<Entry>, e: Entry)
    requires Unique(entries) && e in entries
    ensures Find(entries, e.key) == Some(e.value)
  {
    if entries[0] != e {
      UniqueFinds(entries[1..], e);
    }
  }

  /** A name that the configuration accepts, and that the inventory does not give back:
      whatever was written before, the line break at its end is lost. */
  lemma AcceptedNameIsLost(writes: seq<Write>, f: Fields)
    ensures var all := writes + [Inventory(f.(probeName := "foo\n"))];
            && ProbeConfig.NameOk("foo\n")
            && Reach(all).Some?
            && LastWritten(all, "PROBE_NAME") == "foo\n"
            && Reads(all, "PROBE_NAME") != "foo\n"
  {
    var name := "foo\n";
    BreakIsNoName();
    var w := Inventory(f.(probeName := name));
    var all := writes + [w];
    assert all[..|all| - 1] == writes;
    EntryKeys(w);
    UniqueFinds(Own(w.fields), Entry("PROBE_NAME", name));
    ReadValuesAreClean(Reach(all).value);
    hide Clean, Lines, ValuesOf, Own;
  }

  lemma BreakIsNoName()
    ensures !Clean("foo\n") && Clean("") && ProbeConfig.NameOk("foo\n")
  {
    var name := "foo\n";
    assert name[|name| - 1] == '\n' && ProbeConfig.Chopped(name) == "foo";
  }

  /** Every line sets a key, and no two lines set the same one. */
  ghost predicate EachKeyOnce(lines: seq<string>) {
    && (forall i :: 0 <= i < |lines| ==> ParseLine(lines[i]).Some?)
    && (forall i, j :: 0 <= i < j < |lines| ==> ParseLine(lines[i]).value.key != ParseLine(lines[j]).value.key)
  }

  /** Blank lines aside, no key stands in a reachable file twice. */
  lemma KeysStayUnique(writes: seq<Write>)
    requires AllTame(writes)
    ensures Reach(writes).Some? ==> EachKeyOnce(Solid(Lines(Reach(writes).value)))
  {
    var entries := ReachHolds(writes);
    if Reach(writes).Some? {
      RenderedOnce(entries);
    }
  }

  lemma ParsesAsRendered(entries: seq<Entry>, i: nat)
    requires GoodEntries(entries) && i < |entries|
    ensures |Render(entries)| == |entries|
    ensures ParseLine(Render(entries)[i]).Some? && ParseLine(Render(entries)[i]).value.key == entries[i].key
  {
    hide ParseLine, GoodKey, OneLine;
    RenderedLength(entries);
    RenderedAt(entries, i);
    assert entries[i] in entries;
    ParseRendered(entries[i]);
  }

  lemma RenderedOnce(entries: seq<Entry>)
    requires Unique(entries) && GoodEntries(entries)
    ensures EachKeyOnce(Render(entries))
  {
    hide ParseLine, Unique, GoodEntries, Render;
    RenderedLength(entries);
    forall i | 0 <= i < |entries|
      ensures ParseLine(Render(entries)[i]).Some? && ParseLine(Render(entries)[i]).value.key == entries[i].key
    {
      ParsesAsRendered(entries, i);
    }
    forall i, j | 0 <= i < j < |entries| ensures entries[i].key != entries[j].key {
      UniqueApart(entries, i, j);
    }
  }

  lemma {:induction false} RenderedAt(entries: seq<Entry>, i: nat)
    requires i < |Render(entries)|
    ensures |Render(entries)| == |entries| && Render(entries)[i] == entries[i].key + "=" + entries[i].value
  {
    if i > 0 {
      RenderedAt(entries[1..], i - 1);
    } else {
      RenderedLength(entries);
    }
  }

  lemma {:induction false} RenderedLength(entries: seq<Entry>)
    ensures |Render(entries)| == |entries|
  {
    if entries != [] {
      RenderedLength(entries[1..]);
    }
  }

  lemma {:induction false} UniqueApart(entries: seq<Entry>, i: nat, j: nat)
    requires Unique(entries) && i < j < |entries|
    ensures entries[i].key != entries[j].key
  {
    if i == 0 {
      MemberIsFound(entries[1..], j - 1);
    } else {
      UniqueApart(entries[1..], i - 1, j - 1);
    }
  }

  /** A partial write before the first full one is refused. */
  lemma {:induction false} NoInventoryNoUpdate(writes: seq<Write>)
    requires forall w :: w in writes ==> !w.Inventory?
    ensures Reach(writes) == None
  {
    if writes != [] {
      assert writes[|writes| - 1] in writes;
      NoInventoryNoUpdate(writes[..|writes| - 1]);
    }
  }
}
