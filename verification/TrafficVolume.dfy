/** The mobile data volume of one billing period, kept from single counter readings
    across restarts of the gateway. */
module TrafficVolume {
  import opened Prelude

  /** What the state file keeps between runs; `start` names the billing period. */
  datatype Account = Account(start: int, baseline: int, carry: int, last: int)

  datatype Usage = Usage(volume: Option<int>, account: Account)

  function Fresh(start: int, counter: int): Account {
    Account(start, counter, 0, counter)
  }

  /** The volume to report, None while there is nothing to measure against, and the
      account to keep. */
  function UsageSince(previous: Option<Account>, counter: int, start: int): Usage {
    if previous.None? then Usage(None, Fresh(start, counter))
    else
      var p := previous.value;
      var carry := if counter < p.last then p.carry + p.last - p.baseline else p.carry;
      var baseline := if counter < p.last then 0 else p.baseline;
      if p.start != start then Usage(Some(0), Fresh(start, counter))
      else Usage(Some(carry + counter - baseline), Account(start, baseline, carry, counter))
  }

  // --- A gateway and its readings ------------------------------------------

  datatype Event =
    | Traffic(bytes: nat)
    | Restart
    | Run(start: int)
    | LoseState

  /** Beside the counter and the account: the readings of the current period, the true
      traffic since its first one, how much of it a restart wiped off the counter since
      the last run, and how much no later reading can show any more. */
  datatype World = World(
    counter: nat,
    account: Option<Account>,
    reported: Option<int>,
    readings: seq<nat>,
    total: nat,
    restarted: bool,
    wiped: nat,
    lost: nat)

  const START := World(0, None, None, [], 0, false, 0, 0)

  function LastReading(w: World): nat {
    if w.readings == [] then 0 else w.readings[|w.readings| - 1]
  }

  /** A restart costs what was counted since the last run; the last reading as well where
      the new counter has passed it before anybody looked. */
  function Loss(w: World): nat {
    if !w.restarted then 0
    else w.wiped + if w.counter >= LastReading(w) then LastReading(w) else 0
  }

  function Apply(w: World, e: Event): World {
    match e
    case Traffic(bytes) => w.(counter := w.counter + bytes, total := w.total + bytes)
    case Restart =>
      var since := if w.account.None? || w.restarted || w.counter < w.account.value.last then w.counter
                   else w.counter - w.account.value.last;
      w.(counter := 0, restarted := true, wiped := w.wiped + since)
    case LoseState => w.(account := None, reported := None)
    case Run(start) =>
      var usage := UsageSince(w.account, w.counter, start);
      if w.account.None? || w.account.value.start != start then
        World(w.counter, Some(usage.account), usage.volume, [w.counter], 0, false, 0, 0)
      else
        w.(account := Some(usage.account), reported := usage.volume, readings := w.readings + [w.counter],
           restarted := false, wiped := 0, lost := w.lost + Loss(w))
  }

  function Reach(events: seq<Event>): World {
    if events == [] then START else Apply(Reach(events[..|events| - 1]), events[|events| - 1])
  }

  // --- The promises --------------------------------------------------------

  /** What one reading adds to the one before: the increase, or all of it after a drop. */
  function Increase(earlier: nat, later: nat): nat {
    if later < earlier then later else later - earlier
  }

  function Increases(readings: seq<nat>): nat {
    if |readings| < 2 then 0
    else Increases(readings[..|readings| - 1]) + Increase(readings[|readings| - 2], readings[|readings| - 1])
  }

  /** What the account amounts to. */
  function Kept(a: Account): int {
    a.carry + a.last - a.baseline
  }

  /** Counted since the last reading and still on the counter. */
  function OnTheCounter(w: World): int
    requires w.account.Some?
  {
    if w.restarted then w.counter else w.counter - w.account.value.last
  }

  ghost predicate Inv(w: World) {
    w.account.Some? ==>
      var a := w.account.value;
      && w.readings != []
      && a.last == LastReading(w)
      && Kept(a) == Increases(w.readings)
      && (!w.restarted ==> w.counter >= a.last && w.wiped == 0)
      && w.total == Kept(a) + w.lost + w.wiped + OnTheCounter(w)
      && (w.reported.Some? ==> w.reported.value == Kept(a))
      && (|w.readings| > 1 ==> w.reported.Some?)
  }

  lemma StepKeeps(w: World, e: Event)
    requires Inv(w)
    ensures Inv(Apply(w, e))
  {
    if e.Run? && w.account.Some? && w.account.value.start == e.start {
      assert (w.readings + [w.counter])[..|w.readings|] == w.readings;
    }
  }

  lemma {:induction false} ReachKeeps(events: seq<Event>)
    ensures Inv(Reach(events))
  {
    if events != [] {
      ReachKeeps(events[..|events| - 1]);
      StepKeeps(Reach(events[..|events| - 1]), events[|events| - 1]);
    }
  }

  lemma Then(events: seq<Event>, e: Event)
    ensures Reach(events + [e]) == Apply(Reach(events), e)
  {
    assert (events + [e])[..|events|] == events;
  }

  /** Every run that reports a volume reports the sum over the period's readings of the
      increase, or of the whole reading after a drop; and together with what restarts
      lost, that is the true traffic since the first reading. */
  lemma VolumeIsTheSum(events: seq<Event>, start: int)
    ensures var w := Reach(events + [Run(start)]);
            w.reported.Some? ==>
              && w.reported.value == Increases(w.readings)
              && w.reported.value + w.lost == w.total
              && 0 <= w.reported.value <= w.total
  {
    Then(events, Run(start));
    ReachKeeps(events + [Run(start)]);
  }

  /** A run falls short of the true traffic exactly where a restart since the period's
      first reading lost some: traffic no run had seen, or the last reading itself because
      the counter had passed it again. */
  lemma ShortExactlyByWhatRestartsLost(events: seq<Event>, start: int)
    requires Reach(events).account.Some? && Reach(events).account.value.start == start
    ensures var before, after := Reach(events), Reach(events + [Run(start)]);
            && after.reported.Some?
            && after.lost == before.lost
                 + (if !before.restarted then 0
                    else before.wiped + if before.counter >= LastReading(before) then LastReading(before) else 0)
            && (after.reported.value == after.total <==> after.lost == 0)
  {
    Then(events, Run(start));
    ReachKeeps(events);
    ReachKeeps(events + [Run(start)]);
  }

  /** Within a period the reported volume never goes back. */
  lemma VolumeNeverDecreases(events: seq<Event>, start: int)
    ensures var before, after := Reach(events), Reach(events + [Run(start)]);
            before.reported.Some? && before.account.Some? && before.account.value.start == start
            ==> after.reported.Some? && before.reported.value <= after.reported.value
  {
    Then(events, Run(start));
    ReachKeeps(events);
  }

  // --- Without restarts ----------------------------------------------------

  function Bytes(events: seq<Event>): nat {
    if events == [] then 0
    else Bytes(events[..|events| - 1]) + if events[|events| - 1].Traffic? then events[|events| - 1].bytes else 0
  }

  ghost predicate OnePeriod(events: seq<Event>, start: int) {
    forall i :: 0 <= i < |events| ==> events[i].Traffic? || events[i] == Run(start)
  }

  lemma {:induction false} NothingLost(before: seq<Event>, events: seq<Event>, start: int)
    requires OnePeriod(events, start)
    requires Reach(before + [Run(start)]).total == 0
    ensures var w := Reach(before + [Run(start)] + events);
            w.account.Some? && w.account.value.start == start && !w.restarted && w.total == Bytes(events)
            && w.lost == Reach(before + [Run(start)]).lost
  {
    var head := before + [Run(start)];
    if events == [] {
      assert head + events == head;
      Then(before, Run(start));
    } else {
      var front, last := events[..|events| - 1], events[|events| - 1];
      forall i | 0 <= i < |front| ensures front[i].Traffic? || front[i] == Run(start) {
        assert front[i] == events[i];
      }
      NothingLost(before, front, start);
      Then(head + front, last);
      assert head + front + [last] == head + events;
    }
  }

  /** From the first reading of a period on, without a restart, the volume is the true
      traffic, however many runs lay in between. */
  lemma ExactWithoutRestarts(before: seq<Event>, events: seq<Event>, start: int)
    requires Reach(before).account.None? || Reach(before).account.value.start != start
    requires OnePeriod(events, start)
    ensures Reach(before + [Run(start)] + events + [Run(start)]).reported == Some(Bytes(events))
  {
    Then(before, Run(start));
    NothingLost(before, events, start);
    var all := before + [Run(start)] + events;
    Then(all, Run(start));
    ReachKeeps(all);
    ReachKeeps(all + [Run(start)]);
  }

  /** Which runs were skipped makes no difference then. */
  lemma SkippedRunsDoNotMatter(before: seq<Event>, many: seq<Event>, few: seq<Event>, start: int)
    requires Reach(before).account.None? || Reach(before).account.value.start != start
    requires OnePeriod(many, start) && OnePeriod(few, start)
    requires Bytes(many) == Bytes(few)
    ensures Reach(before + [Run(start)] + many + [Run(start)]).reported == Reach(before + [Run(start)] + few + [Run(start)]).reported
  {
    ExactWithoutRestarts(before, many, start);
    ExactWithoutRestarts(before, few, start);
  }

  /** With a restart they do: a run between the traffic and the restart saves exactly what
      was counted since the run before it. */
  lemma ARunBeforeTheRestartMatters(events: seq<Event>, start: int)
    requires Reach(events).account.Some? && Reach(events).account.value.start == start && !Reach(events).restarted
    ensures var w := Reach(events);
            var without, saved := Reach(events + [Restart] + [Run(start)]), Reach(events + [Run(start)] + [Restart] + [Run(start)]);
            && without.reported.Some? && saved.reported.Some?
            && saved.reported.value - without.reported.value == w.counter - LastReading(w) >= 0
  {
    ReachKeeps(events);
    Then(events, Restart);
    Then(events + [Restart], Run(start));
    Then(events, Run(start));
    Then(events + [Run(start)], Restart);
    Then(events + [Run(start)] + [Restart], Run(start));
    hide Reach;
  }

  lemma FiftyBytesOn(events: seq<Event>)
    requires Reach(events) == START
    ensures Reach(events + [Run(1)] + [Traffic(50)]) == World(50, Some(Fresh(1, 0)), None, [0], 50, false, 0, 0)
  {
    Then(events, Run(1));
    Then(events + [Run(1)], Traffic(50));
    hide Reach;
  }

  /** Fifty bytes, a restart, and a run that reports none of them. */
  lemma ARestartLosesTraffic()
    ensures var w := Reach([] + [Run(1)] + [Traffic(50)] + [Restart] + [Run(1)]);
            w.reported == Some(0) && w.total == 50
  {
    var events: seq<Event> := [];
    assert Reach(events) == START;
    hide Reach;
    FiftyBytesOn(events);
    Then(events + [Run(1)] + [Traffic(50)], Restart);
    Then(events + [Run(1)] + [Traffic(50)] + [Restart], Run(1));
  }
}
