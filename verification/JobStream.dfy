/** The live log of one job: numbered lines, history in pages, and the queue that bridges
    the two. */
module JobStream {
  import opened Prelude
  import opened EventBroadcaster

  const PAGE := 1000

  // --- The stored log ------------------------------------------------------

  /** One more than the highest number so far. */
  function NextSequence(log: seq<Line>): nat {
    if log == [] then 1 else log[|log| - 1].sequence + 1
  }

  ghost predicate Numbered(log: seq<Line>) {
    forall i :: 0 <= i < |log| ==> log[i].sequence == i + 1
  }

  /** The stored lines numbered above `after`. */
  function After(log: seq<Line>, after: nat): seq<Line> {
    if after <= |log| then log[after..] else []
  }

  function Page(log: seq<Line>, after: nat, limit: nat): seq<Line> {
    if |After(log, after)| <= limit then After(log, after) else After(log, after)[..limit]
  }

  /** What the query asks for is what a page holds: the lowest numbers above `after`. */
  lemma PageMeaning(log: seq<Line>, after: nat, limit: nat, line: Line)
    requires Numbered(log) && limit > 0
    ensures line in Page(log, after, limit) <==> line in log && after < line.sequence <= after + limit
  {
    var page := Page(log, after, limit);
    if line in log && after < line.sequence <= after + limit {
      var i :| 0 <= i < |log| && log[i] == line;
      assert page[i - after] == line;
    }
    if line in page {
      var i :| 0 <= i < |page| && page[i] == line;
      assert log[after + i] == line;
    }
  }

  lemma PageAdvances(log: seq<Line>, cursor: nat)
    requires Numbered(log) && Page(log, cursor, PAGE) != []
    ensures var page := Page(log, cursor, PAGE);
            && page[|page| - 1].sequence == cursor + |page| <= |log|
            && page + After(log, cursor + |page|) == After(log, cursor)
            && (|page| < PAGE ==> After(log, cursor + |page|) == [])
  {
    var page := Page(log, cursor, PAGE);
    assert page[|page| - 1] == log[cursor + |page| - 1];
  }

  lemma Regroup<T>(a: seq<T>, b: seq<T>, c: seq<T>)
    ensures a + b + c == a + (b + c)
  {
  }

  /** Page by page, by the last number seen, the history is rebuilt once and without a gap. */
  method ReadBacklog(log: seq<Line>, after: nat) returns (backlog: seq<Line>)
    requires Numbered(log)
    ensures backlog == After(log, after)
  {
    backlog := [];
    var cursor: nat := after;
    hide After, Page;
    while true
      invariant backlog + After(log, cursor) == After(log, after)
      decreases |After(log, cursor)|
    {
      var page := Page(log, cursor, PAGE);
      if page == [] {
        NothingAfter(log, cursor);
        return;
      }
      PageAdvances(log, cursor);
      assert page[|page| - 1].sequence == cursor + |page|;
      Regroup(backlog, page, After(log, cursor + |page|));
      backlog := backlog + page;
      cursor := page[|page| - 1].sequence;
      if |page| < PAGE {
        return;
      }
    }
  }

  lemma NothingAfter(log: seq<Line>, cursor: nat)
    requires Page(log, cursor, PAGE) == []
    ensures After(log, cursor) == []
  {
  }

  // --- One stream beside the worker ----------------------------------------

  datatype Phase = NotConnected | Reading | Streaming

  /** `unpublished` is stored and not yet handed to the subscribers.  `published` and `left`
      count the lines that were handed out and those of them that left this stream's queue
      again; `dropped` is what the queue gave up. */
  datatype World = World(
    log: seq<Line>,
    unpublished: seq<Event>,
    published: nat,
    phase: Phase,
    queue: seq<Event>,
    left: nat,
    after: nat,
    cursor: nat,
    sent: seq<Line>,
    dropped: set<nat>)

  const START := World([], [], 0, NotConnected, [], 0, 0, 0, [], {})

  datatype Action =
    | Log(text: string)
    | Status(status: string)
    | Publish
    | Connect(after: nat)
    | ReadPage
    | Take

  function LineCount(e: Event): nat {
    if e.LineEvent? then 1 else 0
  }

  function Apply(w: World, a: Action): World {
    match a
    case Log(text) =>
      var line := Line(NextSequence(w.log), text);
      w.(log := w.log + [line], unpublished := w.unpublished + [LineEvent(line)])
    case Status(status) => w.(unpublished := w.unpublished + [StatusEvent(status)])
    case Publish =>
      if w.unpublished == [] then w
      else
        var next := w.(unpublished := w.unpublished[1..], published := w.published + LineCount(w.unpublished[0]));
        if w.phase.NotConnected? then next
        else if |w.queue| < QUEUE_SIZE then next.(queue := Pushed(w.queue, w.unpublished[0]))
        else next.(queue := Pushed(w.queue, w.unpublished[0]),
                   left := w.left + LineCount(w.queue[0]),
                   dropped := if w.queue[0].LineEvent? then w.dropped + {w.queue[0].line.sequence} else w.dropped)
    // Listening first, reading second.
    case Connect(after) =>
      if w.phase.NotConnected? then w.(phase := Reading, queue := [], left := w.published, after := after, cursor := after) else w
    // Everything read is sent before anything live is.
    case ReadPage =>
      if !w.phase.Reading? then w
      else
        var page := Page(w.log, w.cursor, PAGE);
        w.(sent := w.sent + page,
           cursor := if page == [] then w.cursor else page[|page| - 1].sequence,
           phase := if |page| < PAGE then Streaming else Reading)
    // A line the history already held is a duplicate.
    case Take =>
      if !w.phase.Streaming? || w.queue == [] then w
      else
        var e := w.queue[0];
        w.(queue := w.queue[1..],
           left := w.left + LineCount(e),
           sent := if e.LineEvent? && e.line.sequence > w.cursor then w.sent + [e.line] else w.sent)
  }

  function Reach(actions: seq<Action>): World {
    if actions == [] then START else Apply(Reach(actions[..|actions| - 1]), actions[|actions| - 1])
  }

  // --- The invariant -------------------------------------------------------

  /** The lines among these events. */
  function LinesIn(events: seq<Event>): seq<Line> {
    if events == [] then []
    else LinesIn(events[..|events| - 1]) + if events[|events| - 1].LineEvent? then [events[|events| - 1].line] else []
  }

  /** What was published is the log up to some line; what waits in the queue are the last
      of them, without a gap. */
  ghost predicate InOrder(w: World) {
    && Numbered(w.log)
    && w.published <= |w.log|
    && LinesIn(w.unpublished) == w.log[w.published..]
    && (!w.phase.NotConnected? ==> w.left <= w.published && LinesIn(w.queue) == w.log[w.left..w.published])
  }

  ghost predicate Increasing(lines: seq<Line>) {
    forall i, j :: 0 <= i < j < |lines| ==> lines[i].sequence < lines[j].sequence
  }

  /** The highest number the stream is done with. */
  function Through(w: World): nat {
    if w.phase.Reading? || w.cursor > w.left then w.cursor else w.left
  }

  /** Above `after`, no further than `to`, and as the log has them. */
  ghost predicate FromTheLog(lines: seq<Line>, log: seq<Line>, after: nat, to: nat) {
    forall i :: 0 <= i < |lines| ==>
      && after < lines[i].sequence <= to
      && lines[i].sequence <= |log|
      && lines[i] == log[lines[i].sequence - 1]
  }

  /** What was sent are lines of the log, in order and once, above what the client had. */
  ghost predicate SentInOrder(w: World) {
    && Increasing(w.sent)
    && FromTheLog(w.sent, w.log, w.after, Through(w))
  }

  predicate Sent(w: World, number: nat) {
    exists i :: 0 <= i < |w.sent| && w.sent[i].sequence == number
  }

  /** The history was sent whole, and of the lines that left the queue after it those that
      it did not give up. */
  ghost predicate NothingSkipped(w: World) {
    && (forall n :: w.after < n <= w.cursor ==> Sent(w, n))
    && (w.phase.Streaming? ==> forall n :: w.cursor < n <= w.left ==> (Sent(w, n) <==> n !in w.dropped))
  }

  ghost predicate Bounds(w: World) {
    && w.after <= w.cursor
    && (w.cursor > w.after ==> w.cursor <= |w.log|)
    && (forall n :: n in w.dropped ==> n <= w.left)
  }

  ghost predicate Inv(w: World) {
    && InOrder(w)
    && (!w.phase.NotConnected? ==> SentInOrder(w) && NothingSkipped(w) && Bounds(w))
    && (w.phase.NotConnected? ==> w.sent == [] && w.dropped == {})
  }

  lemma {:induction false} LinesInConcat(a: seq<Event>, b: seq<Event>)
    ensures LinesIn(a + b) == LinesIn(a) + LinesIn(b)
  {
    if b == [] {
      assert a + b == a;
    } else {
      var front := b[..|b| - 1];
      LinesInConcat(a, front);
      assert (a + b)[..|a + b| - 1] == a + front && (a + b)[|a + b| - 1] == b[|b| - 1];
    }
  }

  function LineOf(e: Event): seq<Line> {
    if e.LineEvent? then [e.line] else []
  }

  lemma LinesInOne(e: Event)
    ensures LinesIn([e]) == LineOf(e)
  {
    assert [e][..0] == [];
  }

  lemma LinesInHead(events: seq<Event>)
    requires events != []
    ensures LinesIn(events) == LineOf(events[0]) + LinesIn(events[1..])
  {
    assert events == [events[0]] + events[1..];
    LinesInConcat([events[0]], events[1..]);
    LinesInOne(events[0]);
  }

  lemma LinesInSnoc(events: seq<Event>, e: Event)
    ensures LinesIn(events + [e]) == LinesIn(events) + LineOf(e)
  {
    LinesInConcat(events, [e]);
    LinesInOne(e);
  }

  // --- Every step keeps it -------------------------------------------------

  lemma StoringKeepsOrder(w: World, a: Action)
    requires InOrder(w) && (a.Log? || a.Status?)
    ensures InOrder(Apply(w, a))
  {
    hide LinesIn;
    var next := Apply(w, a);
    if a.Log? {
      var line := Line(NextSequence(w.log), a.text);
      LinesInSnoc(w.unpublished, LineEvent(line));
      LogGrows(w.log, line, w.published, w.left);
    } else {
      LinesInSnoc(w.unpublished, StatusEvent(a.status));
    }
  }

  lemma LogGrows(log: seq<Line>, line: Line, published: nat, left: nat)
    requires published <= |log|
    ensures (log + [line])[published..] == log[published..] + [line]
    ensures left <= published ==> (log + [line])[left..published] == log[left..published]
  {
  }

  lemma PushedLines(queue: seq<Event>, e: Event)
    ensures |queue| < QUEUE_SIZE ==> LinesIn(Pushed(queue, e)) == LinesIn(queue) + LineOf(e)
    ensures |queue| >= QUEUE_SIZE ==>
              && LineCount(queue[0]) <= |LinesIn(queue)|
              && LinesIn(Pushed(queue, e)) == LinesIn(queue)[LineCount(queue[0])..] + LineOf(e)
  {
    if |queue| < QUEUE_SIZE {
      LinesInSnoc(queue, e);
    } else {
      LinesInHead(queue);
      LinesInSnoc(queue[1..], e);
      hide LinesIn;
      assert (LineOf(queue[0]) + LinesIn(queue[1..]))[LineCount(queue[0])..] == LinesIn(queue[1..]);
    }
  }

  /** A window on the log that grows at its end and shrinks at its start. */
  lemma WindowMoves(log: seq<Line>, from: nat, to: nat, gone: nat, come: nat)
    requires from + gone <= to && to + come <= |log|
    ensures log[from..to][gone..] + log[to..to + come] == log[from + gone..to + come]
    ensures log[to..][come..] == log[to + come..]
  {
  }

  lemma HandingOut(w: World)
    requires InOrder(w) && w.unpublished != []
    ensures var come := LineCount(w.unpublished[0]);
            && w.published + come <= |w.log|
            && LinesIn(w.unpublished[1..]) == w.log[w.published + come..]
            && LineOf(w.unpublished[0]) == w.log[w.published..w.published + come]
  {
    var e := w.unpublished[0];
    LinesInHead(w.unpublished);
    hide LinesIn;
    var come := LineCount(e);
    assert come <= |w.log| - w.published;
    WindowMoves(w.log, w.published, w.published, 0, come);
    assert LinesIn(w.unpublished[1..]) == w.log[w.published..][come..];
  }

  lemma QueueMoves(w: World, e: Event)
    requires InOrder(w) && !w.phase.NotConnected?
    requires w.published + LineCount(e) <= |w.log| && LineOf(e) == w.log[w.published..w.published + LineCount(e)]
    ensures var gone := if |w.queue| < QUEUE_SIZE then 0 else LineCount(w.queue[0]);
            && w.left + gone <= w.published
            && LinesIn(Pushed(w.queue, e)) == w.log[w.left + gone..w.published + LineCount(e)]
  {
    PushedLines(w.queue, e);
    hide LinesIn, Pushed, LineOf;
    var gone := if |w.queue| < QUEUE_SIZE then 0 else LineCount(w.queue[0]);
    WindowMoves(w.log, w.left, w.published, gone, LineCount(e));
    assert LinesIn(w.queue)[0..] == LinesIn(w.queue);
  }

  lemma PublishingKeepsOrder(w: World)
    requires InOrder(w) && w.unpublished != []
    ensures InOrder(Apply(w, Publish))
  {
    HandingOut(w);
    if !w.phase.NotConnected? {
      QueueMoves(w, w.unpublished[0]);
    }
    hide LinesIn, Pushed, LineOf, Numbered, LineCount;
  }

  lemma TakingKeepsOrder(w: World)
    requires InOrder(w) && w.phase.Streaming? && w.queue != []
    ensures InOrder(Apply(w, Take))
    ensures w.queue[0].LineEvent? ==> w.left < w.published && w.queue[0].line == w.log[w.left]
  {
    LinesInHead(w.queue);
    hide LinesIn;
    var gone := LineCount(w.queue[0]);
    assert gone <= |LinesIn(w.queue)|;
    WindowMoves(w.log, w.left, w.published, gone, 0);
    assert LinesIn(w.queue[1..]) == LinesIn(w.queue)[gone..];
    assert w.log[w.published..w.published + 0] == [];
  }

  lemma StepKeepsOrder(w: World, a: Action)
    requires InOrder(w)
    ensures InOrder(Apply(w, a))
  {
    match a
    case Log(_) => StoringKeepsOrder(w, a);
    case Status(_) => StoringKeepsOrder(w, a);
    case Publish => if w.unpublished != [] { PublishingKeepsOrder(w); }
    case Connect(_) => assert w.log[w.published..w.published] == [];
    case ReadPage =>
    case Take => if w.phase.Streaming? && w.queue != [] { TakingKeepsOrder(w); }
  }

  // --- What was sent -------------------------------------------------------

  /** The head of the queue is the line after those that left it. */
  lemma HeadIsNext(w: World)
    requires InOrder(w) && !w.phase.NotConnected? && w.queue != [] && w.queue[0].LineEvent?
    ensures w.left < w.published && w.queue[0].line == w.log[w.left] && w.queue[0].line.sequence == w.left + 1
  {
    LinesInHead(w.queue);
    hide LinesIn;
    assert (LineOf(w.queue[0]) + LinesIn(w.queue[1..]))[0] == w.queue[0].line;
  }

  lemma SentIsTheList(w: World, next: World)
    requires next.sent == w.sent
    ensures forall n :: Sent(next, n) <==> Sent(w, n)
  {
  }

  lemma SentGrows(w: World, line: Line, next: World)
    requires next.sent == w.sent + [line]
    ensures forall n :: Sent(next, n) <==> Sent(w, n) || n == line.sequence
  {
    forall n | Sent(w, n) ensures Sent(next, n) {
      var i :| 0 <= i < |w.sent| && w.sent[i].sequence == n;
      assert next.sent[i] == w.sent[i];
    }
    assert next.sent[|w.sent|] == line;
  }

  lemma StoringKeepsSent(w: World, a: Action)
    requires Inv(w) && (a.Log? || a.Status?)
    ensures Inv(Apply(w, a))
  {
    StepKeepsOrder(w, a);
    var next := Apply(w, a);
    hide InOrder;
    assert next.sent == w.sent && next.log[..|w.log|] == w.log;
    SentIsTheList(w, next);
    hide Sent;
  }

  lemma ConnectingKeepsSent(w: World, a: Action)
    requires Inv(w) && a.Connect?
    ensures Inv(Apply(w, a))
  {
    StepKeepsOrder(w, a);
    hide InOrder;
  }

  lemma FurtherIsEnough(lines: seq<Line>, log: seq<Line>, after: nat, to: nat, further: nat)
    requires FromTheLog(lines, log, after, to) && to <= further
    ensures FromTheLog(lines, log, after, further)
  {
  }

  lemma PublishingKeepsSent(w: World)
    requires Inv(w)
    ensures Inv(Apply(w, Publish))
  {
    StepKeepsOrder(w, Publish);
    if w.queue != [] && w.queue[0].LineEvent? && !w.phase.NotConnected? {
      HeadIsNext(w);
    }
    hide InOrder, Pushed, Increasing, FromTheLog;
    var next := Apply(w, Publish);
    assert next.sent == w.sent && next.log == w.log && next.cursor == w.cursor && next.after == w.after;
    FurtherIsEnough(w.sent, w.log, w.after, Through(w), Through(next));
    SentIsTheList(w, next);
    hide Sent;
  }

  /** What one page adds. */
  ghost predicate PageRead(w: World, next: World, page: seq<Line>) {
    && next.log == w.log && next.after == w.after && next.dropped == w.dropped && next.left == w.left
    && next.cursor == w.cursor + |page|
    && next.sent == w.sent + page
    && (page != [] ==> w.cursor + |page| <= |w.log| && page == w.log[w.cursor..w.cursor + |page|])
    && (next.phase.Reading? || (next.phase.Streaming? && next.cursor >= |w.log|))
  }

  lemma PageIsNext(log: seq<Line>, cursor: nat)
    requires Numbered(log)
    ensures var page := Page(log, cursor, PAGE);
            && (page != [] ==> cursor + |page| <= |log| && page == log[cursor..cursor + |page|]
                               && page[|page| - 1].sequence == cursor + |page|)
            && (|page| < PAGE ==> cursor + |page| >= |log|)
  {
  }

  lemma ReadingAddsAPage(w: World)
    requires InOrder(w) && w.phase.Reading?
    ensures PageRead(w, Apply(w, ReadPage), Page(w.log, w.cursor, PAGE))
  {
    PageIsNext(w.log, w.cursor);
    hide InOrder, Numbered, Page;
  }

  lemma IncreasingConcat(a: seq<Line>, b: seq<Line>, between: nat)
    requires Increasing(a) && Increasing(b)
    requires forall i :: 0 <= i < |a| ==> a[i].sequence <= between
    requires forall i :: 0 <= i < |b| ==> b[i].sequence > between
    ensures Increasing(a + b)
  {
  }

  lemma SliceIsFromTheLog(log: seq<Line>, from: nat, to: nat)
    requires Numbered(log) && from <= to <= |log|
    ensures FromTheLog(log[from..to], log, from, to) && Increasing(log[from..to])
  {
  }

  lemma PageKeepsOrder(w: World, next: World, page: seq<Line>)
    requires Numbered(w.log) && SentInOrder(w) && Bounds(w) && w.phase.Reading? && PageRead(w, next, page)
    ensures SentInOrder(next)
  {
    if page == [] {
      assert w.sent + page == w.sent;
    } else {
      SliceIsFromTheLog(w.log, w.cursor, w.cursor + |page|);
      IncreasingConcat(w.sent, page, w.cursor);
      hide Increasing, Numbered;
    }
  }

  lemma PageSkipsNothing(w: World, next: World, page: seq<Line>)
    requires Numbered(w.log) && NothingSkipped(w) && PageRead(w, next, page) && w.left <= |w.log|
    ensures NothingSkipped(next)
  {
    forall n | Sent(w, n) ensures Sent(next, n) {
      var i :| 0 <= i < |w.sent| && w.sent[i].sequence == n;
      assert next.sent[i] == w.sent[i];
    }
    forall n | w.cursor < n <= next.cursor ensures Sent(next, n) {
      assert next.sent[|w.sent| + (n - w.cursor - 1)] == page[n - w.cursor - 1];
    }
  }

  lemma ReadingKeepsSent(w: World)
    requires Inv(w) && w.phase.Reading?
    ensures Inv(Apply(w, ReadPage))
  {
    StepKeepsOrder(w, ReadPage);
    ReadingAddsAPage(w);
    var next, page := Apply(w, ReadPage), Page(w.log, w.cursor, PAGE);
    PageKeepsOrder(w, next, page);
    PageSkipsNothing(w, next, page);
    hide Page, InOrder, Apply, SentInOrder, NothingSkipped;
  }

  /** A line from the queue that the history did not hold goes out behind the others. */
  lemma SendingKeeps(w: World, line: Line, next: World)
    requires SentInOrder(w) && NothingSkipped(w) && Bounds(w) && w.phase.Streaming?
    requires w.left < |w.log| && line == w.log[w.left] && line.sequence == w.left + 1 > w.cursor
    requires next == w.(queue := next.queue, left := w.left + 1, sent := w.sent + [line])
    ensures SentInOrder(next) && NothingSkipped(next) && Bounds(next)
  {
    SentGrows(w, line, next);
    hide Sent;
  }

  lemma PassingKeeps(w: World, next: World)
    requires SentInOrder(w) && NothingSkipped(w) && Bounds(w) && w.phase.Streaming?
    requires next == w.(queue := next.queue, left := next.left)
    requires next.left == w.left || (next.left == w.left + 1 && w.left + 1 <= w.cursor)
    ensures SentInOrder(next) && NothingSkipped(next) && Bounds(next)
  {
    SentIsTheList(w, next);
    hide Sent;
  }

  lemma TakingKeepsSent(w: World)
    requires Inv(w) && w.phase.Streaming? && w.queue != []
    ensures Inv(Apply(w, Take))
  {
    StepKeepsOrder(w, Take);
    var e := w.queue[0];
    var next := Apply(w, Take);
    if e.LineEvent? {
      HeadIsNext(w);
    }
    assert w.published <= |w.log|;
    if e.LineEvent? && w.left + 1 > w.cursor {
      SendingKeeps(w, e.line, next);
    } else {
      PassingKeeps(w, next);
    }
    hide InOrder, SentInOrder, NothingSkipped, Bounds;
  }

  lemma StepKeeps(w: World, a: Action)
    requires Inv(w)
    ensures Inv(Apply(w, a))
  {
    match a
    case Publish => PublishingKeepsSent(w);
    case ReadPage => if w.phase.Reading? { ReadingKeepsSent(w); }
    case Take => if w.phase.Streaming? && w.queue != [] { TakingKeepsSent(w); }
    case Connect(_) => ConnectingKeepsSent(w, a);
    case _ => StoringKeepsSent(w, a);
  }

  lemma {:induction false} ReachKeeps(actions: seq<Action>)
    ensures Inv(Reach(actions))
  {
    if actions != [] {
      ReachKeeps(actions[..|actions| - 1]);
      StepKeeps(Reach(actions[..|actions| - 1]), actions[|actions| - 1]);
    }
  }

  // --- The promises --------------------------------------------------------

  /** The numbers of a job's log are 1 to n in every run. */
  lemma LogIsNumbered(actions: seq<Action>)
    ensures Numbered(Reach(actions).log)
  {
    ReachKeeps(actions);
  }

  /** What is stored or announced waits to be published, behind what waited before; publishing
      hands the first of it to the queue that is listening, and nobody else gets it. */
  lemma PublishesInOrder(w: World, text: string, status: string)
    ensures Apply(w, Status(status)) == w.(unpublished := w.unpublished + [StatusEvent(status)])
    ensures var w' := Apply(w, Log(text));
            && |w'.log| == |w.log| + 1 && w'.log[..|w.log|] == w.log
            && w'.unpublished == w.unpublished + [LineEvent(w'.log[|w.log|])] && w'.queue == w.queue
    ensures w.unpublished == [] ==> Apply(w, Publish) == w
    ensures w.unpublished != [] ==>
      var w' := Apply(w, Publish);
      && w'.unpublished == w.unpublished[1..] && w'.log == w.log && w'.sent == w.sent && w'.cursor == w.cursor
      && (w.phase.NotConnected? ==> w'.queue == w.queue)
      && (!w.phase.NotConnected? ==> w'.queue == Pushed(w.queue, w.unpublished[0]))
  {
  }

  /** The client reads page by page until one is not full, and only then takes what waits in
      the queue, one event at a time; a line it has from the history is not sent again. */
  lemma ReadsThenTakes(w: World)
    ensures !w.phase.Reading? ==> Apply(w, ReadPage) == w
    ensures w.phase.Reading? ==>
      var w' := Apply(w, ReadPage);
      && w'.sent == w.sent + Page(w.log, w.cursor, 1000) && w'.queue == w.queue
      && (w'.phase.Streaming? <==> |Page(w.log, w.cursor, 1000)| < 1000) && !w'.phase.NotConnected?
    ensures !w.phase.Streaming? || w.queue == [] ==> Apply(w, Take) == w
    ensures w.phase.Streaming? && w.queue != [] ==>
      var w', e := Apply(w, Take), w.queue[0];
      && w'.queue == w.queue[1..] && w'.cursor == w.cursor && w'.phase == w.phase
      && w'.sent == w.sent + (if e.LineEvent? && e.line.sequence > w.cursor then [e.line] else [])
  {
  }

  /** The texts that were logged, in order. */
  function Logged(actions: seq<Action>): seq<string> {
    if actions == [] then []
    else
      var last := actions[|actions| - 1];
      Logged(actions[..|actions| - 1]) + if last.Log? then [last.text] else []
  }

  /** The stored lines are what was logged, line by line. */
  lemma {:induction false} LogIsWhatWasLogged(actions: seq<Action>)
    ensures |Reach(actions).log| == |Logged(actions)|
    ensures forall i :: 0 <= i < |Logged(actions)| ==> Reach(actions).log[i].text == Logged(actions)[i]
  {
    if actions != [] {
      LogIsWhatWasLogged(actions[..|actions| - 1]);
    }
  }

  /** A stream starts where its client says it stopped, and keeps to that. */
  lemma {:induction false} StartsWhereTheClientStopped(actions: seq<Action>, n: nat, after: nat)
    requires n < |actions| && actions[n] == Connect(after) && Reach(actions[..n]).phase.NotConnected?
    ensures Reach(actions).after == after && !Reach(actions).phase.NotConnected?
  {
    var front := actions[..|actions| - 1];
    if n < |front| {
      assert front[..n] == actions[..n];
      StartsWhereTheClientStopped(front, n, after);
    }
  }

  /** Still on its way: in the queue, or stored and not yet handed out. */
  predicate Waiting(w: World, number: nat) {
    w.left < number <= |w.log|
  }

  /** That is: it stands in the reader's queue, or in what the writer has not published. */
  lemma WaitingMeaning(actions: seq<Action>, number: nat)
    requires !Reach(actions).phase.NotConnected? && 1 <= number <= |Reach(actions).log|
    ensures var w := Reach(actions);
            Waiting(w, number) <==> w.log[number - 1] in LinesIn(w.queue) || w.log[number - 1] in LinesIn(w.unpublished)
  {
    hide LinesIn, Reach;
    ReachKeeps(actions);
    var w := Reach(actions);
    var line := w.log[number - 1];
    if Waiting(w, number) {
      if number <= w.published {
        assert w.log[w.left..w.published][number - 1 - w.left] == line;
      } else {
        assert w.log[w.published..][number - 1 - w.published] == line;
      }
    } else {
      forall i | w.left <= i < |w.log| ensures w.log[i] != line {
        assert w.log[i].sequence == i + 1;
      }
    }
  }

  /** Whatever is logged, read and handed out while the client connects and follows: it
      gets lines of the log only, in order, each once, and none it had. */
  lemma NoLineTwice(actions: seq<Action>, i: nat, j: nat)
    requires i < j < |Reach(actions).sent|
    ensures var w := Reach(actions);
            && w.after < w.sent[i].sequence < w.sent[j].sequence <= |w.log|
            && w.sent[i] == w.log[w.sent[i].sequence - 1]
  {
    ReachKeeps(actions);
    hide Reach, InOrder, NothingSkipped, Bounds;
  }

  /** No line is lost between history and live: every line after the client's own is sent
      or on its way, unless the queue gave it up after the history had been read. */
  lemma NoLineLost(actions: seq<Action>, number: nat)
    requires Reach(actions).phase.Streaming?
    requires Reach(actions).after < number <= |Reach(actions).log|
    ensures var w := Reach(actions);
            (Sent(w, number) || Waiting(w, number)) <==> !(number in w.dropped && number > w.cursor)
  {
    ReachKeeps(actions);
  }

  /** A queue that never overflowed loses nothing. */
  lemma NothingLostWithoutOverflow(actions: seq<Action>, number: nat)
    requires Reach(actions).phase.Streaming? && Reach(actions).dropped == {}
    requires Reach(actions).after < number <= |Reach(actions).log|
    ensures Sent(Reach(actions), number) || Waiting(Reach(actions), number)
  {
    NoLineLost(actions, number);
  }
}
