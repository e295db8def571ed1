/** The link sensor: its quality index, and which channels it reports. */
module LinkQuality {
  import opened Prelude

  // --- The quality index ---------------------------------------------------

  /** Python's round: to the nearest, a half to the even neighbour. */
  function Round(x: real): int {
    var below := x.Floor;
    var rest := x - below as real;
    if rest < 0.5 then below
    else if rest > 0.5 then below + 1
    else if below % 2 == 0 then below
    else below + 1
  }

  /** The R factor of the simplified E-model (ITU-T G.107); jitter counts double. */
  function Factor(latency: real, jitter: real, loss: real): real {
    var effective := latency + 2.0 * jitter + 10.0;
    (if effective < 160.0 then 93.2 - effective / 40.0 else 93.2 - (effective - 120.0) / 10.0) - loss * 2.5
  }

  function Clamp(x: real): real {
    if x < 0.0 then 0.0 else if x > 100.0 then 100.0 else x
  }

  function QualityIndex(latency: real, jitter: real, loss: real): int {
    Round(Clamp(Factor(latency, jitter, loss)))
  }

  lemma RoundIsMonotone(x: real, y: real)
    requires x <= y
    ensures Round(x) <= Round(y)
  {
    assert x.Floor <= y.Floor;
  }

  /** Across the change of slope as well. */
  lemma FactorFalls(latency: real, jitter: real, loss: real, worseLatency: real, worseJitter: real, worseLoss: real)
    requires latency <= worseLatency && jitter <= worseJitter && loss <= worseLoss
    ensures Factor(worseLatency, worseJitter, worseLoss) <= Factor(latency, jitter, loss)
  {
  }

  /** A line that gets worse in any respect never gets a better index. */
  lemma IndexNeverRises(latency: real, jitter: real, loss: real, worseLatency: real, worseJitter: real, worseLoss: real)
    requires latency <= worseLatency && jitter <= worseJitter && loss <= worseLoss
    ensures QualityIndex(worseLatency, worseJitter, worseLoss) <= QualityIndex(latency, jitter, loss)
  {
    FactorFalls(latency, jitter, loss, worseLatency, worseJitter, worseLoss);
    hide Factor, Round;
    RoundIsMonotone(Clamp(Factor(worseLatency, worseJitter, worseLoss)), Clamp(Factor(latency, jitter, loss)));
  }

  /** The index stays on its scale; what can be measured never gets above 93, which the
      perfect line has. */
  lemma IndexRange(latency: real, jitter: real, loss: real)
    ensures 0 <= QualityIndex(latency, jitter, loss) <= 100
    ensures latency >= 0.0 && jitter >= 0.0 && loss >= 0.0 ==> QualityIndex(latency, jitter, loss) <= 93
    ensures QualityIndex(0.0, 0.0, 0.0) == 93
  {
    RoundIsMonotone(0.0, Clamp(Factor(latency, jitter, loss)));
    RoundIsMonotone(Clamp(Factor(latency, jitter, loss)), 100.0);
    assert Factor(0.0, 0.0, 0.0) == 92.95 && 92.95.Floor == 92;
    if latency >= 0.0 && jitter >= 0.0 && loss >= 0.0 {
      IndexNeverRises(0.0, 0.0, 0.0, latency, jitter, loss);
    }
  }

  /** What a line pays for: a millisecond of jitter what two of latency cost, a percent of
      loss two and a half points whatever the latency, 40 ms of latency one point as long
      as latency and jitter stay below 150 ms, and four beyond. */
  lemma WhatCostsWhat(latency: real, jitter: real, loss: real, more: real)
    requires more >= 0.0
    ensures Factor(latency, jitter, loss) == Factor(latency + 2.0 * jitter, 0.0, 0.0) - 2.5 * loss
    ensures latency + 2.0 * jitter + more < 150.0 ==>
      Factor(latency + more, jitter, loss) == Factor(latency, jitter, loss) - more / 40.0
    ensures latency + 2.0 * jitter >= 150.0 ==>
      Factor(latency + more, jitter, loss) == Factor(latency, jitter, loss) - more / 10.0
    ensures Factor(0.0, 0.0, 0.0) == 92.95 && Factor(150.0, 0.0, 0.0) == 89.2
  {
  }

  /** The index is the nearest whole number, a half going to the even one, and stops at the
      ends of its scale. */
  lemma IndexIsNearest(latency: real, jitter: real, loss: real)
    ensures var index, factor := QualityIndex(latency, jitter, loss), Factor(latency, jitter, loss);
            && (factor <= 0.0 ==> index == 0)
            && (factor >= 100.0 ==> index == 100)
            && (0.0 <= factor <= 100.0 ==>
                  -0.5 <= factor - index as real <= 0.5
                  && (factor - index as real in {-0.5, 0.5} ==> index % 2 == 0))
  {
    hide Factor;
    RoundIsMonotone(0.0, 0.0);
  }

  // --- Targets and their channels ------------------------------------------

  const EXTERNAL_BASE := 30
  const INTERNAL_BASE := 50
  const CHANNELS_PER_TARGET := 3
  const MAX_EXTERNAL := 6
  const MAX_INTERNAL := 4

  datatype Scope = External | Internal

  datatype Mode = Icmp | Tcp

  /** A target as it was parsed; None where its text was refused. */
  datatype Spec = Spec(name: string, mode: Mode)

  datatype Target = Target(name: string, mode: Mode, scope: Scope, channel: int)

  function Base(scope: Scope): int {
    if scope == External then EXTERNAL_BASE else INTERNAL_BASE
  }

  function Limit(scope: Scope): int {
    if scope == External then MAX_EXTERNAL else MAX_INTERNAL
  }

  /** None is the configuration error. */
  function Placed(specs: seq<Option<Spec>>, scope: Scope): Option<seq<Target>> {
    if specs == [] then Some([])
    else
      var before, last := Placed(specs[..|specs| - 1], scope), specs[|specs| - 1];
      if before.None? || last.None? then None
      else Some(before.value + [Target(last.value.name, last.value.mode, scope, Base(scope) + (|specs| - 1) * CHANNELS_PER_TARGET)])
  }

  function Group(specs: seq<Option<Spec>>, scope: Scope): Option<seq<Target>> {
    if |specs| > Limit(scope) then None else Placed(specs, scope)
  }

  function Collected(external: seq<Option<Spec>>, internal: seq<Option<Spec>>): Option<seq<Target>> {
    var outside, inside := Group(external, External), Group(internal, Internal);
    if outside.None? || inside.None? || outside.value + inside.value == [] then None
    else Some(outside.value + inside.value)
  }

  method CollectGroup(specs: seq<Option<Spec>>, scope: Scope) returns (targets: Option<seq<Target>>)
    ensures targets == Group(specs, scope)
  {
    if |specs| > Limit(scope) {
      return None;
    }
    var placed: seq<Target> := [];
    for position := 0 to |specs|
      invariant Placed(specs[..position], scope) == Some(placed)
    {
      assert specs[..position + 1][..position] == specs[..position];
      if specs[position].None? {
        RefusedStays(specs, scope, position + 1);
        return None;
      }
      var spec := specs[position].value;
      placed := placed + [Target(spec.name, spec.mode, scope, Base(scope) + position * CHANNELS_PER_TARGET)];
    }
    assert specs[..|specs|] == specs;
    return Some(placed);
  }

  /** One refused target refuses them all. */
  lemma {:induction false} RefusedStays(specs: seq<Option<Spec>>, scope: Scope, n: nat)
    requires n <= |specs| && Placed(specs[..n], scope).None?
    ensures Placed(specs, scope).None?
    decreases |specs| - n
  {
    if n == |specs| {
      assert specs[..n] == specs;
    } else {
      assert specs[..n + 1][..n] == specs[..n];
      RefusedStays(specs, scope, n + 1);
    }
  }

  method CollectTargets(external: seq<Option<Spec>>, internal: seq<Option<Spec>>) returns (targets: Option<seq<Target>>)
    ensures targets == Collected(external, internal)
  {
    var outside := CollectGroup(external, External);
    if outside.None? {
      return None;
    }
    var inside := CollectGroup(internal, Internal);
    if inside.None? || outside.value + inside.value == [] {
      return None;
    }
    return Some(outside.value + inside.value);
  }

  lemma {:induction false} PlacedChannels(specs: seq<Option<Spec>>, scope: Scope)
    requires Placed(specs, scope).Some?
    ensures var targets := Placed(specs, scope).value;
            && |targets| == |specs|
            && forall i :: 0 <= i < |targets| ==>
                 && specs[i].Some? && targets[i].name == specs[i].value.name && targets[i].mode == specs[i].value.mode
                 && targets[i].scope == scope
                 && targets[i].channel == Base(scope) + 3 * i
  {
    if specs != [] {
      PlacedChannels(specs[..|specs| - 1], scope);
    }
  }

  lemma {:induction false} PlacedExactly(specs: seq<Option<Spec>>, scope: Scope)
    ensures Placed(specs, scope).Some? <==> None !in specs
    ensures Placed(specs, scope).Some? ==> |Placed(specs, scope).value| == |specs|
  {
    if specs != [] {
      var front, last := specs[..|specs| - 1], specs[|specs| - 1];
      PlacedExactly(front, scope);
      assert specs == front + [last];
    }
  }

  /** A configuration is accepted exactly if every target was parsed, there are at most six
      outside and four inside, and there is one at all. */
  lemma AcceptedExactly(external: seq<Option<Spec>>, internal: seq<Option<Spec>>)
    ensures Collected(external, internal).Some? <==>
      && None !in external && None !in internal
      && |external| <= 6 && |internal| <= 4 && |external| + |internal| >= 1
  {
    hide Placed;
    PlacedExactly(external, External);
    PlacedExactly(internal, Internal);
  }

  // --- Results -------------------------------------------------------------

  /** What the helper reports about one target; a time is None where it has none. */
  datatype Result = Result(name: string, reachable: bool, sent: nat, received: nat, loss: real, latency: Option<real>, jitter: Option<real>)

  /** The last result of that name. */
  function ByName(results: seq<Result>, name: string): Option<Result> {
    if results == [] then None
    else if results[|results| - 1].name == name then Some(results[|results| - 1])
    else ByName(results[..|results| - 1], name)
  }

  datatype Merged = Merged(result: Result, scope: Scope, mode: Mode)

  /** Every configured target with its result, or the substitute for none. */
  function MergeResults(targets: seq<Target>, results: seq<Result>): seq<Merged> {
    if targets == [] then []
    else
      var last := targets[|targets| - 1];
      var found := ByName(results, last.name);
      MergeResults(targets[..|targets| - 1], results)
      + [Merged(if found.Some? then found.value else Result(last.name, false, 0, 0, 100.0, None, None), last.scope, last.mode)]
  }

  datatype Channel = Channel(id: int, name: string, value: real)

  function ValueOr(x: Option<real>, otherwise: real): real {
    if x.Some? then x.value else otherwise
  }

  function TargetChannels(targets: seq<Target>, merged: seq<Merged>): seq<Channel>
    requires |merged| == |targets|
  {
    if targets == [] then []
    else
      var n := |targets| - 1;
      var target, outcome := targets[n], merged[n].result;
      TargetChannels(targets[..n], merged[..n])
      + [Channel(target.channel, target.name + " Loss", outcome.loss),
         Channel(target.channel + 1, target.name + " Latency", ValueOr(outcome.latency, 0.0)),
         Channel(target.channel + 2, target.name + " Jitter", ValueOr(outcome.jitter, 0.0))]
  }

  /** No result after this one has its name. */
  ghost predicate IsLastOf(results: seq<Result>, k: int, name: string) {
    0 <= k < |results| && results[k].name == name && forall j :: k < j < |results| ==> results[j].name != name
  }

  lemma {:induction false} ByNameExactly(results: seq<Result>, name: string, k: int)
    ensures IsLastOf(results, k, name) ==> ByName(results, name) == Some(results[k])
    ensures (forall j :: 0 <= j < |results| ==> results[j].name != name) ==> ByName(results, name) == None
  {
    if results != [] && results[|results| - 1].name != name {
      var front := results[..|results| - 1];
      assert forall j :: 0 <= j < |front| ==> front[j] == results[j];
      ByNameExactly(front, name, k);
    }
  }

  /** Every target is reported by the last result of its name, and where there is none as
      not reachable, without a packet or a time, and with all of it lost. */
  lemma {:induction false} MergedExactly(targets: seq<Target>, results: seq<Result>, i: nat, k: int)
    requires i < |targets|
    ensures |MergeResults(targets, results)| == |targets|
    ensures var name, result := targets[i].name, MergeResults(targets, results)[i].result;
            && (IsLastOf(results, k, name) ==> result == results[k])
            && ((forall j :: 0 <= j < |results| ==> results[j].name != name) ==>
                  result == Result(name, false, 0, 0, 100.0, None, None))
  {
    MergedLength(targets, results);
    if i < |targets| - 1 {
      MergedExactly(targets[..|targets| - 1], results, i, k);
    } else {
      ByNameExactly(results, targets[i].name, k);
    }
  }

  /** Three channels of a target in turn: its loss, its latency and its jitter, 0 where it
      has no such time. */
  lemma {:induction false} ChannelsOfTarget(targets: seq<Target>, merged: seq<Merged>, i: nat)
    requires |merged| == |targets| && i < |targets|
    ensures var channels, target, result := TargetChannels(targets, merged), targets[i], merged[i].result;
            && |channels| == 3 * |targets|
            && channels[3 * i] == Channel(target.channel, target.name + " Loss", result.loss)
            && channels[3 * i + 1] == Channel(
                 target.channel + 1, target.name + " Latency", if result.latency.Some? then result.latency.value else 0.0)
            && channels[3 * i + 2] == Channel(
                 target.channel + 2, target.name + " Jitter", if result.jitter.Some? then result.jitter.value else 0.0)
  {
    var n := |targets| - 1;
    ChannelsCount(targets[..n], merged[..n]);
    if i < n {
      ChannelsOfTarget(targets[..n], merged[..n], i);
    }
  }

  lemma {:induction false} ChannelsCount(targets: seq<Target>, merged: seq<Merged>)
    requires |merged| == |targets|
    ensures |TargetChannels(targets, merged)| == 3 * |targets|
  {
    if targets != [] {
      ChannelsCount(targets[..|targets| - 1], merged[..|targets| - 1]);
    }
  }

  predicate AnyOf(merged: seq<Merged>, scope: Scope) {
    exists i :: 0 <= i < |merged| && merged[i].scope == scope
  }

  const FIXED := [10, 11, 12, 13, 14, 15, 16, 17, 18, 19, 20]

  /** The channels of a report, before they are put in order. */
  function ChannelIds(targets: seq<Target>, results: seq<Result>): seq<int> {
    var merged := MergeResults(targets, results);
    MergedLength(targets, results);
    FIXED
    + (if AnyOf(merged, External) then [21] else [])
    + (if AnyOf(merged, Internal) then [22] else [])
    + Ids(TargetChannels(targets, merged))
  }

  function Ids(channels: seq<Channel>): seq<int> {
    seq(|channels|, i requires 0 <= i < |channels| => channels[i].id)
  }

  lemma {:induction false} MergedLength(targets: seq<Target>, results: seq<Result>)
    ensures |MergeResults(targets, results)| == |targets|
    ensures forall i :: 0 <= i < |targets| ==>
              && MergeResults(targets, results)[i].scope == targets[i].scope
              && MergeResults(targets, results)[i].mode == targets[i].mode
  {
    if targets != [] {
      MergedLength(targets[..|targets| - 1], results);
    }
  }

  /** Three numbers per target, in configuration order. */
  function TargetIds(targets: seq<Target>): seq<int> {
    if targets == [] then []
    else
      var channel := targets[|targets| - 1].channel;
      TargetIds(targets[..|targets| - 1]) + [channel, channel + 1, channel + 2]
  }

  lemma {:induction false} TargetChannelIds(targets: seq<Target>, merged: seq<Merged>)
    requires |merged| == |targets|
    ensures Ids(TargetChannels(targets, merged)) == TargetIds(targets)
  {
    if targets != [] {
      var n := |targets| - 1;
      TargetChannelIds(targets[..n], merged[..n]);
      var before, all := TargetChannels(targets[..n], merged[..n]), TargetChannels(targets, merged);
      var channel := targets[n].channel;
      IdsGrow(before, all[|before|..]);
      assert all == before + all[|before|..];
      assert Ids(all[|before|..]) == [channel, channel + 1, channel + 2];
    }
  }

  lemma IdsGrow(a: seq<Channel>, b: seq<Channel>)
    ensures Ids(a + b) == Ids(a) + Ids(b)
  {
  }

  /** Which channels a report has depends on the configuration alone: a class that is
      configured has its summary, and every target its three. */
  lemma ChannelsFollowTheConfiguration(targets: seq<Target>, results: seq<Result>)
    ensures ChannelIds(targets, results)
            == FIXED
               + (if exists i :: 0 <= i < |targets| && targets[i].scope == External then [21] else [])
               + (if exists i :: 0 <= i < |targets| && targets[i].scope == Internal then [22] else [])
               + TargetIds(targets)
  {
    var merged := MergeResults(targets, results);
    MergedLength(targets, results);
    TargetChannelIds(targets, merged);
    SameScopes(targets, merged, External);
    SameScopes(targets, merged, Internal);
    hide MergeResults, TargetChannels, AnyOf, TargetIds;
  }

  lemma SameScopes(targets: seq<Target>, merged: seq<Merged>, scope: Scope)
    requires |merged| == |targets| && forall i :: 0 <= i < |targets| ==> merged[i].scope == targets[i].scope
    ensures AnyOf(merged, scope) <==> exists i :: 0 <= i < |targets| && targets[i].scope == scope
  {
    if i :| 0 <= i < |targets| && targets[i].scope == scope {
      assert merged[i].scope == scope;
    }
  }

  ghost predicate Ascending(ids: seq<int>) {
    forall i, j :: 0 <= i < j < |ids| ==> ids[i] < ids[j]
  }

  /** Every target has room for its three channels before the next. */
  ghost predicate Spaced(targets: seq<Target>) {
    forall i, j :: 0 <= i < j < |targets| ==> targets[i].channel + 2 < targets[j].channel
  }

  lemma {:induction false} SpacedAscend(targets: seq<Target>)
    requires Spaced(targets)
    ensures Ascending(TargetIds(targets))
    ensures forall id :: id in TargetIds(targets) ==>
              targets != [] && targets[0].channel <= id <= targets[|targets| - 1].channel + 2
  {
    if targets != [] {
      var front, last := targets[..|targets| - 1], targets[|targets| - 1];
      SpacedAscend(front);
      var ids := TargetIds(front);
      assert front != [] ==> front[|front| - 1].channel + 2 < last.channel;
      forall i | 0 <= i < |ids| ensures ids[i] < last.channel {
        assert ids[i] in ids;
      }
    }
  }

  lemma CollectedAreSpaced(external: seq<Option<Spec>>, internal: seq<Option<Spec>>)
    requires Collected(external, internal).Some?
    ensures Spaced(Collected(external, internal).value)
    ensures forall i :: 0 <= i < |Collected(external, internal).value| ==> Collected(external, internal).value[i].channel > 22
  {
    PlacedChannels(external, External);
    PlacedChannels(internal, Internal);
  }

  /** In every accepted configuration, whatever the results, the channel numbers of a
      report ascend: no two channels, fixed ones included, share a number. */
  lemma ChannelsAreDistinct(external: seq<Option<Spec>>, internal: seq<Option<Spec>>, results: seq<Result>)
    requires Collected(external, internal).Some?
    ensures Ascending(ChannelIds(Collected(external, internal).value, results))
    ensures Distinct(ChannelIds(Collected(external, internal).value, results))
  {
    hide Collected, TargetIds, ChannelIds, Ascending, Distinct;
    var targets := Collected(external, internal).value;
    CollectedAreSpaced(external, internal);
    SpacedAscend(targets);
    ChannelsFollowTheConfiguration(targets, results);
    var ids := TargetIds(targets);
    forall i | 0 <= i < |ids| ensures ids[i] > 22 {
      assert ids[i] in ids && targets != [];
    }
    ReportAscends(exists i :: 0 <= i < |targets| && targets[i].scope == External,
                  exists i :: 0 <= i < |targets| && targets[i].scope == Internal, ids);
    AscendingIsDistinct(ChannelIds(targets, results));
  }

  lemma ReportAscends(outside: bool, inside: bool, ids: seq<int>)
    requires Ascending(ids) && forall i :: 0 <= i < |ids| ==> ids[i] > 22
    ensures Ascending(FIXED + (if outside then [21] else []) + (if inside then [22] else []) + ids)
  {
    var all := FIXED + (if outside then [21] else []) + (if inside then [22] else []);
    assert Ascending(all) && forall i :: 0 <= i < |all| ==> all[i] <= 22;
  }

  lemma AscendingIsDistinct(ids: seq<int>)
    requires Ascending(ids)
    ensures Distinct(ids)
  {
  }

  /** Adding a target at the end of a class leaves every other target its channels. */
  lemma AppendingMovesNothing(
      external: seq<Option<Spec>>, internal: seq<Option<Spec>>, added: Option<Spec>, scope: Scope, target: Target)
    requires Collected(external, internal).Some?
    requires Collected(if scope == External then external + [added] else external,
                       if scope == Internal then internal + [added] else internal).Some?
    requires target in Collected(external, internal).value
    ensures target in Collected(if scope == External then external + [added] else external,
                                if scope == Internal then internal + [added] else internal).value
  {
    var specs := if scope == External then external else internal;
    assert (specs + [added])[..|specs|] == specs;
  }

  // --- The overall statement -----------------------------------------------

  function OfMode(merged: seq<Merged>, mode: Mode): seq<Merged> {
    if merged == [] then []
    else
      var last := merged[|merged| - 1];
      OfMode(merged[..|merged| - 1], mode) + if last.result.reachable && last.mode == mode then [last] else []
  }

  /** Echo targets decide where one answers; the others take their place. */
  function Timed(merged: seq<Merged>): seq<Merged> {
    if OfMode(merged, Icmp) != [] then OfMode(merged, Icmp) else OfMode(merged, Tcp)
  }

  function Times(timed: seq<Merged>, latency: bool): seq<real> {
    if timed == [] then []
    else
      var last := timed[|timed| - 1].result;
      var time := if latency then last.latency else last.jitter;
      Times(timed[..|timed| - 1], latency) + if time.Some? then [time.value] else []
  }

  function Sum(times: seq<real>): real {
    if times == [] then 0.0 else Sum(times[..|times| - 1]) + times[|times| - 1]
  }

  function Mean(times: seq<real>): real {
    if times == [] then 0.0 else Sum(times) / |times| as real
  }

  function SentOf(timed: seq<Merged>): nat {
    if timed == [] then 0 else SentOf(timed[..|timed| - 1]) + timed[|timed| - 1].result.sent
  }

  function ReceivedOf(timed: seq<Merged>): nat {
    if timed == [] then 0 else ReceivedOf(timed[..|timed| - 1]) + timed[|timed| - 1].result.received
  }

  function QualityLoss(timed: seq<Merged>): real {
    if SentOf(timed) == 0 then 0.0
    else (SentOf(timed) - ReceivedOf(timed)) as real * 100.0 / SentOf(timed) as real
  }

  /** 0 where no target has a round-trip time. */
  function Quality(merged: seq<Merged>): int {
    var timed := Timed(merged);
    if Times(timed, true) == [] then 0
    else QualityIndex(Mean(Times(timed, true)), Mean(Times(timed, false)), QualityLoss(timed))
  }

  // --- Means ---------------------------------------------------------------

  lemma {:induction false} SumOfConstant(times: seq<real>, x: real)
    requires forall i :: 0 <= i < |times| ==> times[i] == x
    ensures Sum(times) == |times| as real * x
  {
    if times != [] {
      SumOfConstant(times[..|times| - 1], x);
      assert |times| as real == (|times| - 1) as real + 1.0;
    }
  }

  lemma {:induction false} SumMoves(times: seq<real>, i: nat, d: real)
    requires i < |times|
    ensures Sum(times[i := times[i] + d]) == Sum(times) + d
  {
    var n := |times| - 1;
    var moved := times[i := times[i] + d];
    if i < n {
      assert moved[..n] == times[..n][i := times[i] + d];
      SumMoves(times[..n], i, d);
    } else {
      assert moved[..n] == times[..n];
    }
  }

  /** The mean of equal times is that time, and one time that moves moves it by its share:
      together that leaves no other value. */
  lemma MeanExactly(times: seq<real>, i: nat, x: real, d: real)
    requires i < |times|
    ensures (forall k :: 0 <= k < |times| ==> times[k] == x) ==> Mean(times) == x
    ensures Mean(times[i := times[i] + d]) == Mean(times) + d / |times| as real
  {
    hide Sum;
    SumMoves(times, i, d);
    Share(Sum(times), d, |times| as real);
    if forall k :: 0 <= k < |times| ==> times[k] == x {
      SumOfConstant(times, x);
      Whole(x, |times| as real);
    }
  }

  lemma Share(sum: real, d: real, n: real)
    requires n > 0.0
    ensures (sum + d) / n == sum / n + d / n
  {
  }

  lemma Whole(x: real, n: real)
    requires n > 0.0
    ensures (n * x) / n == x
  {
  }

  /** One more target that is timed brings its time to the means, if it has one, and its
      packets to the loss. */
  lemma OneMoreTarget(timed: seq<Merged>, target: Merged)
    ensures var all, result := timed + [target], target.result;
            && Times(all, true) == Times(timed, true) + (if result.latency.Some? then [result.latency.value] else [])
            && Times(all, false) == Times(timed, false) + (if result.jitter.Some? then [result.jitter.value] else [])
            && SentOf(all) == SentOf(timed) + result.sent && ReceivedOf(all) == ReceivedOf(timed) + result.received
            && (SentOf(all) > 0 ==>
                  QualityLoss(all) * SentOf(all) as real == 100.0 * (SentOf(all) - ReceivedOf(all)) as real)
  {
    assert (timed + [target])[..|timed|] == timed;
    hide Times, SentOf, ReceivedOf;
  }

  /** Without a latency among the timed targets the rating is 0; with one it is the index of
      the means, where no jitter at all counts as none, and no packet as no loss. */
  lemma RatedExactly(merged: seq<Merged>)
    ensures var timed := Timed(merged);
            && (Times(timed, true) == [] ==> Quality(merged) == 0)
            && (Times(timed, true) != [] ==>
                  Quality(merged) == QualityIndex(
                    Mean(Times(timed, true)),
                    if Times(timed, false) == [] then 0.0 else Mean(Times(timed, false)),
                    if SentOf(timed) == 0 then 0.0 else QualityLoss(timed)))
  {
    hide QualityIndex, Times, Timed, SentOf, ReceivedOf;
  }

  /** A single target that is timed is rated by its own numbers. */
  lemma OneTargetIsRated(target: Merged, latency: real, jitter: real)
    requires target.result.reachable && target.result.latency == Some(latency) && target.result.jitter == Some(jitter)
    requires target.result.sent > 0
    ensures Quality([target]) == QualityIndex(
      latency, jitter, (target.result.sent - target.result.received) as real * 100.0 / target.result.sent as real)
    ensures Quality([]) == 0
  {
    var empty: seq<Merged> := [];
    var one := [target];
    hide QualityIndex, Mean, QualityLoss, OfMode, Times, SentOf, ReceivedOf;
    assert empty + [target] == one;
    OneIsTimed(target);
    OneMoreTarget(empty, target);
    NoneIsTimed();
    assert Times(one, true) == [latency] && Times(one, false) == [jitter];
    MeanExactly([latency], 0, latency, 0.0);
    MeanExactly([jitter], 0, jitter, 0.0);
    LossOfOne(target);
  }

  lemma OneIsTimed(target: Merged)
    requires target.result.reachable
    ensures Timed([target]) == [target]
  {
    var one := [target];
    assert one[..|one| - 1] == [];
    assert OfMode(one, Icmp) == (if target.mode == Icmp then [target] else []);
    assert OfMode(one, Tcp) == (if target.mode == Tcp then [target] else []);
  }

  lemma NoneIsTimed()
    ensures Timed([]) == [] && Times([], true) == [] && Times([], false) == []
  {
  }

  lemma LossOfOne(target: Merged)
    requires target.result.sent > 0
    ensures QualityLoss([target])
            == (target.result.sent - target.result.received) as real * 100.0 / target.result.sent as real
  {
    var one := [target];
    assert one[..|one| - 1] == [];
    assert SentOf(one) == target.result.sent && ReceivedOf(one) == target.result.received;
  }

  // --- Which targets are timed ---------------------------------------------

  /** Which kind the configuration says is timed: echo targets, where there is one. */
  predicate Configured(targets: seq<Target>, mode: Mode) {
    exists i :: 0 <= i < |targets| && targets[i].mode == mode
  }

  predicate Answers(merged: seq<Merged>, mode: Mode) {
    exists i :: 0 <= i < |merged| && merged[i].mode == mode && merged[i].result.reachable
  }

  ghost predicate TimedAsConfigured(targets: seq<Target>, results: seq<Result>) {
    var timed := Timed(MergeResults(targets, results));
    forall i :: 0 <= i < |timed| ==> timed[i].mode == if Configured(targets, Icmp) then Icmp else Tcp
  }

  lemma {:induction false} OfModeMeaning(merged: seq<Merged>, mode: Mode)
    ensures OfMode(merged, mode) != [] <==> Answers(merged, mode)
    ensures forall i :: 0 <= i < |OfMode(merged, mode)| ==> OfMode(merged, mode)[i].mode == mode
  {
    if merged != [] {
      var front := merged[..|merged| - 1];
      OfModeMeaning(front, mode);
      assert forall i :: 0 <= i < |front| ==> front[i] == merged[i];
    }
  }

  /** Which targets are timed is meant to depend on the configuration and not on the
      measurement.  It does so except where echo targets are configured, none of them
      answers, and another target does: then that one is timed in their place. */
  lemma TimedByConfigurationExactly(targets: seq<Target>, results: seq<Result>)
    ensures var merged := MergeResults(targets, results);
            TimedAsConfigured(targets, results)
            <==> !(Configured(targets, Icmp) && !Answers(merged, Icmp) && Answers(merged, Tcp))
  {
    var merged := MergeResults(targets, results);
    MergedLength(targets, results);
    OfModeMeaning(merged, Icmp);
    OfModeMeaning(merged, Tcp);
    hide MergeResults, OfMode;
    if Configured(targets, Icmp) && !Answers(merged, Icmp) && Answers(merged, Tcp) {
      assert Timed(merged)[0].mode == Tcp;
    }
  }

  /** Some other target does not share its name, and so its result, with an echo target. */
  predicate OwnName(targets: seq<Target>) {
    exists j :: 0 <= j < |targets| && targets[j].mode == Tcp && NoEchoNamed(targets, targets[j].name)
  }

  predicate NoEchoNamed(targets: seq<Target>, name: string) {
    forall i :: 0 <= i < |targets| && targets[i].mode == Icmp ==> targets[i].name != name
  }

  lemma {:induction false} MergedByName(targets: seq<Target>, results: seq<Result>, i: nat)
    requires i < |targets|
    ensures |MergeResults(targets, results)| == |targets|
    ensures MergeResults(targets, results)[i].result.reachable
            <==> ByName(results, targets[i].name).Some? && ByName(results, targets[i].name).value.reachable
  {
    MergedLength(targets, results);
    if i < |targets| - 1 {
      MergedByName(targets[..|targets| - 1], results, i);
      MergedLength(targets[..|targets| - 1], results);
    }
  }

  /** So a configuration keeps the promise in every measurement if and only if it does not
      name an echo target and, by a name of its own, another one. */
  lemma AlwaysTimedAlikeExactly(targets: seq<Target>)
    ensures (forall results :: TimedAsConfigured(targets, results)) <==> !(Configured(targets, Icmp) && OwnName(targets))
  {
    hide MergeResults, TimedAsConfigured, ByName;
    if Configured(targets, Icmp) && OwnName(targets) {
      var results := OnlyThatAnswers(targets);
      assert !TimedAsConfigured(targets, results);
    } else {
      forall results ensures TimedAsConfigured(targets, results) {
        SharedNamesAnswerAlike(targets, results);
        TimedByConfigurationExactly(targets, results);
      }
    }
  }

  lemma SharedNamesAnswerAlike(targets: seq<Target>, results: seq<Result>)
    requires !(Configured(targets, Icmp) && OwnName(targets))
    ensures var merged := MergeResults(targets, results);
            Configured(targets, Icmp) && Answers(merged, Tcp) ==> Answers(merged, Icmp)
  {
    hide MergeResults, ByName;
    var merged := MergeResults(targets, results);
    MergedLength(targets, results);
    if Configured(targets, Icmp) && Answers(merged, Tcp) {
      var j :| 0 <= j < |merged| && merged[j].mode == Tcp && merged[j].result.reachable;
      var i :| 0 <= i < |targets| && targets[i].mode == Icmp && targets[i].name == targets[j].name;
      MergedByName(targets, results, i);
      MergedByName(targets, results, j);
    }
  }

  lemma OnlyThatAnswers(targets: seq<Target>) returns (results: seq<Result>)
    requires Configured(targets, Icmp) && OwnName(targets)
    ensures !TimedAsConfigured(targets, results)
  {
    hide MergeResults, TimedAsConfigured;
    var j :| 0 <= j < |targets| && targets[j].mode == Tcp && NoEchoNamed(targets, targets[j].name);
    results := [Result(targets[j].name, true, 1, 1, 0.0, Some(1.0), Some(0.0))];
    var merged := MergeResults(targets, results);
    assert results[..0] == [];
    MergedLength(targets, results);
    MergedByName(targets, results, j);
    forall i | 0 <= i < |merged| && merged[i].mode == Icmp ensures !merged[i].result.reachable {
      MergedByName(targets, results, i);
    }
    TimedByConfigurationExactly(targets, results);
  }

  lemma {:induction false} OfModeSkips(before: seq<Merged>, dead: Merged, after: seq<Merged>, mode: Mode)
    requires !dead.result.reachable
    ensures OfMode(before + [dead] + after, mode) == OfMode(before + after, mode)
  {
    if after == [] {
      assert before + [dead] + after == before + [dead] && (before + [dead])[..|before|] == before;
      assert before + after == before;
    } else {
      var front, last := after[..|after| - 1], after[|after| - 1];
      OfModeSkips(before, dead, front, mode);
      var a, b := before + [dead] + after, before + after;
      assert a[..|a| - 1] == before + [dead] + front && a[|a| - 1] == last;
      assert b[..|b| - 1] == before + front && b[|b| - 1] == last;
    }
  }

  /** A target that does not answer has no part in the quality index, wherever it stands. */
  lemma DeadTargetsDoNotCount(before: seq<Merged>, dead: Merged, after: seq<Merged>)
    requires !dead.result.reachable
    ensures Quality(before + [dead] + after) == Quality(before + after)
    ensures 0 <= Quality(before + after) <= 100
  {
    OfModeSkips(before, dead, after, Icmp);
    OfModeSkips(before, dead, after, Tcp);
    var timed := Timed(before + after);
    IndexRange(Mean(Times(timed, true)), Mean(Times(timed, false)), QualityLoss(timed));
    hide OfMode, QualityIndex, Times, Mean, QualityLoss;
  }
}
