/** A backfill that holds live dispatch: windows over the buffer, interleaved
    with the pages of live ingest, until a hand-over under the page lock.

    Times are counted in the smallest step, so the next one is `+ 1`. */
module HoldLive {
  import opened Options

  /** A buffered point, known by its offset in the input stream. */
  datatype Point = Point(ts: int, offset: nat)

  /** Where the runner stands in a window: nowhere, with its end chosen, or
      with its rows read. Pages come in between. */
  datatype Phase = Idle | Chosen(end: int) | Loaded(rows: seq<Point>, end: int)

  /** What a job has seen and done: where it starts and up to where points were
      read for it; what arrived while live dispatch was held and, of that, what
      arrived behind the points read; what arrived after; what was held and
      was delivered again after; and every call of the handler. */
  datatype Account = Account(begin: int, frontier: int, early: set<Point>, late: set<Point>, live: set<Point>,
                             again: multiset<Point>, calls: multiset<Point>) {

    /** Held points the windows have to hand to the handler. */
    predicate Covers(p: Point) { p in early && begin <= p.ts < frontier && p !in late }

    /** How often the handler has been called with a point. */
    function Due(p: Point): nat {
      (if Covers(p) || p in live then 1 else 0) + again[p]
    }

    /** The calls made, with those a window is about to make, are what is due. */
    ghost predicate Balanced(loaded: multiset<Point>) {
      && (forall p :: calls[p] + loaded[p] == Due(p))
      && early !! live
      && (forall p :: p in late ==> p in early && begin <= p.ts < frontier)
      && (forall p :: p in again ==> p in early)
    }
  }

  /** The points of a range. */
  function Range(points: set<Point>, from: int, end: int): set<Point> {
    set p | p in points && from <= p.ts < end
  }

  /** What reading a range returns: its points, once each, in time order. */
  predicate IsRows(rows: seq<Point>, points: set<Point>, from: int, end: int) {
    && (forall i, j :: 0 <= i < j < |rows| ==> rows[i].ts <= rows[j].ts)
    && multiset(rows) == multiset(Range(points, from, end))
  }

  lemma RowsCount(rows: seq<Point>, points: set<Point>, from: int, end: int)
    requires IsRows(rows, points, from, end)
    ensures forall p :: multiset(rows)[p] == if p in points && from <= p.ts < end then 1 else 0
  {
    forall p ensures multiset(rows)[p] == if p in points && from <= p.ts < end then 1 else 0 {
      assert multiset(Range(points, from, end))[p] == if p in Range(points, from, end) then 1 else 0;
    }
  }

  /** Nothing is in `points` with `from <= ts < end`. */
  ghost predicate NoneIn(points: set<Point>, from: int, end: int) {
    forall p :: p in points ==> !(from <= p.ts < end)
  }

  // --------------------------------------------------- steps on the account

  /** A held arrival is due, later, unless it comes behind what was read. */
  function ArriveHeld(a: Account, p: Point): Account {
    a.(early := a.early + {p}, late := if a.begin <= p.ts < a.frontier then a.late + {p} else a.late)
  }

  lemma ArriveHeldBalances(a: Account, p: Point, loaded: multiset<Point>)
    requires a.Balanced(loaded) && p !in a.early && p !in a.live
    ensures ArriveHeld(a, p).Balanced(loaded)
  {
    var b := ArriveHeld(a, p);
    forall q ensures b.calls[q] + loaded[q] == b.Due(q) { assert a.calls[q] + loaded[q] == a.Due(q); }
  }

  function ArriveLive(a: Account, p: Point): Account {
    a.(live := a.live + {p}, calls := a.calls + multiset{p})
  }

  lemma ArriveLiveBalances(a: Account, p: Point)
    requires a.Balanced(multiset{}) && p !in a.early && p !in a.live
    ensures ArriveLive(a, p).Balanced(multiset{})
  {
    var b := ArriveLive(a, p);
    assert !(p in a.again);
    forall q ensures b.calls[q] + multiset{}[q] == b.Due(q) { assert a.calls[q] + multiset{}[q] == a.Due(q); }
  }

  function ComeAgain(a: Account, p: Point): Account {
    a.(again := a.again + multiset{p}, calls := a.calls + multiset{p})
  }

  lemma ComeAgainBalances(a: Account, p: Point)
    requires a.Balanced(multiset{}) && p in a.early
    ensures ComeAgain(a, p).Balanced(multiset{})
  {
    var b := ComeAgain(a, p);
    forall q ensures b.calls[q] + multiset{}[q] == b.Due(q) { assert a.calls[q] + multiset{}[q] == a.Due(q); }
  }

  /** Reading a window makes its points due. */
  lemma LoadBalances(a: Account, rows: seq<Point>, end: int)
    requires a.Balanced(multiset{}) && a.live == {}
    requires a.begin <= a.frontier <= end && IsRows(rows, a.early, a.frontier, end)
    ensures a.(frontier := end).Balanced(multiset(rows))
  {
    var b := a.(frontier := end);
    RowsCount(rows, a.early, a.frontier, end);
    forall q ensures b.calls[q] + multiset(rows)[q] == b.Due(q) { assert a.calls[q] + multiset{}[q] == a.Due(q); }
  }

  lemma HandleBalances(a: Account, rows: multiset<Point>)
    requires a.Balanced(rows)
    ensures a.(calls := a.calls + rows).Balanced(multiset{})
  {
    var b := a.(calls := a.calls + rows);
    forall q ensures b.calls[q] + multiset{}[q] == b.Due(q) { assert a.calls[q] + rows[q] == a.Due(q); }
  }

  /** Skipping a stretch without points. */
  lemma SkipBalances(a: Account, to: int)
    requires a.Balanced(multiset{}) && a.frontier <= to && NoneIn(a.early, a.frontier, to)
    ensures a.(frontier := to).Balanced(multiset{})
  {
    var b := a.(frontier := to);
    forall q ensures b.calls[q] + multiset{}[q] == b.Due(q) { assert a.calls[q] + multiset{}[q] == a.Due(q); }
  }

  /** A replay that has run no window goes back to the oldest point. */
  function StartOver(a: Account, to: int): Account {
    a.(begin := Min(a.begin, to), frontier := to, late := {})
  }

  lemma StartOverBalances(a: Account, to: int)
    requires a.Balanced(multiset{}) && a.calls == multiset{} && a.live == {} && forall q :: q in a.early ==> q.ts >= to
    ensures StartOver(a, to).Balanced(multiset{})
  {
    var b := StartOver(a, to);
    forall q ensures b.calls[q] + multiset{}[q] == b.Due(q) { assert a.calls[q] + multiset{}[q] == a.Due(q); }
  }

  // ---------------------------------------------------------------- the job

  /** A point that is no older than any buffered one. */
  ghost predicate InOrder(points: set<Point>, p: Point) {
    forall q :: q in points ==> q.ts <= p.ts
  }

  /** No point of the page is older than the clock when that was taken for the
      edge of an empty buffer. */
  ghost predicate Prompt(clock: Option<int>, page: seq<Point>) {
    clock.Some? ==> forall i :: 0 <= i < |page| ==> clock.value <= page[i].ts
  }

  /** A time the runner moved to is the job's start, or not past a point that
      is buffered or the clock it took for the edge. */
  ghost predicate Backed(t: int, begin: int, points: set<Point>, clock: Option<int>) {
    t <= begin || (clock.Some? && t <= clock.value) || exists q :: q in points && t <= q.ts
  }

  predicate IsNewest(points: set<Point>, newest: Option<int>) {
    && (newest.None? <==> points == {})
    && (newest.Some? ==> exists q :: q in points && q.ts == newest.value)
    && (newest.Some? ==> forall q :: q in points ==> q.ts <= newest.value)
  }

  predicate IsOldest(points: set<Point>, at: int, oldest: Option<int>) {
    && (oldest.None? ==> forall q :: q in points ==> q.ts < at)
    && (oldest.Some? ==> oldest.value >= at && exists q :: q in points && q.ts == oldest.value)
    && (oldest.Some? ==> forall q :: q in points && q.ts >= at ==> q.ts >= oldest.value)
  }

  /** The first so many points of a page. */
  function Points(page: seq<Point>, k: nat): (points: set<Point>)
    requires k <= |page|
    ensures forall p :: p in points <==> exists i :: 0 <= i < k && page[i] == p
  {
    set i | 0 <= i < k :: page[i]
  }

  /** A page that comes in order stays so while it is taken. */
  lemma StaysPunctual(points: set<Point>, page: seq<Point>, k: nat)
    requires k < |page|
    ensures Points(page, k + 1) == Points(page, k) + {page[k]}
    ensures points + Points(page, k + 1) == points + Points(page, k) + {page[k]}
    ensures Punctual(points, page) ==>
      page[k] !in points + Points(page, k) && InOrder(points + Points(page, k), page[k])
  {
  }

  /** A page of new points, none older than what is buffered or than each other. */
  ghost predicate Punctual(points: set<Point>, page: seq<Point>) {
    && (forall i :: 0 <= i < |page| ==> page[i] !in points && InOrder(points, page[i]))
    && Rising(page)
  }

  /** One step of a run: a page of live ingest, or one of the runner. */
  datatype Step =
    | Ingests(page: seq<Point>)
    | ToFirst(first: Option<int>)
    | ToNext(next: Option<int>)
    | Chooses(newest: Option<int>, now: int)
    | Loads(rows: seq<Point>)
    | Handles
    | HandsOver(newest: Option<int>, now: int, rows: seq<Point>)

  /** What arrives live changes nothing else. */
  ghost predicate LiveOnly(was: Account, now: Account) {
    now == was.(live := now.live, again := now.again, calls := now.calls)
  }

  lemma {:induction false} OnceEach(page: seq<Point>)
    requires forall i, j :: 0 <= i < j < |page| ==> page[i] != page[j]
    ensures forall p :: multiset(page)[p] == if p in page then 1 else 0
  {
    if page != [] {
      var front, last := page[..|page| - 1], page[|page| - 1];
      OnceEach(front);
      assert page == front + [last];
    }
  }

  /** New points that arrive live are handled once each. */
  lemma LiveCalls(was: Account, now: Account, page: seq<Point>)
    requires was.Balanced(multiset{}) && now.Balanced(multiset{}) && LiveOnly(was, now) && now.again == was.again
    requires now.early + now.live == was.early + was.live + Points(page, |page|)
    requires Punctual(was.early + was.live, page)
    ensures now.calls == was.calls + multiset(page)
  {
    OnceEach(page);
    forall p ensures now.calls[p] == was.calls[p] + multiset(page)[p] {
      assert was.calls[p] + multiset{}[p] == was.Due(p) && now.calls[p] + multiset{}[p] == now.Due(p);
      assert p in page <==> p in Points(page, |page|);
      assert p in now.early + now.live <==> p in was.early + was.live || p in page;
    }
  }

  /** Each step so far did what it is for. */
  ghost predicate IsPath(window: nat, replay: bool, path: seq<Standing>, script: seq<Step>, k: nat) {
    && k <= |script| && |path| == k + 1
    && forall j :: 0 <= j < k ==> Did(window, replay, path[j], script[j], path[j + 1])
  }

  lemma PathOn(window: nat, replay: bool, path: seq<Standing>, script: seq<Step>, k: nat, next: Standing)
    requires k < |script| && IsPath(window, replay, path, script, k) && Did(window, replay, path[k], script[k], next)
    ensures IsPath(window, replay, path + [next], script, k + 1)
  {
  }

  /** Where a job stands, with every call of the handler so far. */
  datatype Standing = Standing(buffer: set<Point>, position: int, windows: nat, phase: Phase, held: bool,
                               calls: multiset<Point>)

  /** What a step does to a job with these windows: what its operation is for,
      when it is possible, and otherwise nothing. */
  ghost predicate Did(window: nat, replay: bool, a: Standing, step: Step, b: Standing) {
    match step
    case Ingests(page) =>
      b == a.(buffer := a.buffer + Points(page, |page|),
              calls := if a.held then a.calls else a.calls + multiset(page))
    case ToFirst(first) =>
      var back := replay && a.windows == 0;
      b == if a.held && a.phase.Idle? && IsFirst(a.buffer, first) && first.Some? && (a.position < first.value || back)
           then a.(position := first.value) else a
    case ToNext(next) =>
      b == if a.held && a.phase.Idle? && IsOldest(a.buffer, a.position, next) && next.Some?
           then a.(position := next.value) else a
    case Chooses(newest, now) =>
      b == if a.held && a.phase.Idle? && IsNewest(a.buffer, newest) && a.position + window < newest.GetOr(now)
           then a.(phase := Chosen(a.position + window)) else a
    case Loads(rows) =>
      b == if a.held && a.phase.Chosen? && IsRows(rows, a.buffer, a.position, a.phase.end)
           then a.(phase := Loaded(rows, a.phase.end)) else a
    case Handles =>
      b == if a.held && a.phase.Loaded?
           then a.(phase := Idle, position := a.phase.end, windows := a.windows + 1,
                   calls := a.calls + multiset(a.phase.rows)) else a
    case HandsOver(newest, now, rows) =>
      var edge := newest.GetOr(now);
      b == if a.held && a.phase.Idle? && IsNewest(a.buffer, newest)
              && IsRows(rows, a.buffer, a.position, Max(edge, a.position) + 1) && a.position + window >= edge
           then a.(held := false, position := Max(edge, a.position) + 1, windows := a.windows + 1,
                   calls := a.calls + multiset(rows)) else a
  }

  /** A step that comes in order behind another: its points are newer, in the
      stream and in time, than the other's. */
  ghost predicate Follows(a: Step, b: Step) {
    a.Ingests? && b.Ingests? ==>
      forall p, q :: p in b.page && q in a.page ==> q.ts <= p.ts && q.offset < p.offset
  }

  /** Nothing fails: every record comes once, in stream and time order. */
  ghost predicate Orderly(script: seq<Step>) {
    && (forall i, j {:trigger Follows(script[i], script[j])} :: 0 <= i < j < |script| ==> Follows(script[i], script[j]))
    && (forall i :: 0 <= i < |script| && script[i].Ingests? ==> Rising(script[i].page))
  }

  /** A step's points are no older than a clock read before it. */
  ghost predicate Later(a: Step, b: Step) {
    a.Chooses? && b.Ingests? ==> forall p :: p in b.page ==> a.now <= p.ts
  }

  /** No record is older than a clock read before it came. */
  ghost predicate NoDelay(script: seq<Step>) {
    forall i, j {:trigger Later(script[i], script[j])} :: 0 <= i < j < |script| ==> Later(script[i], script[j])
  }

  ghost predicate Rising(page: seq<Point>) {
    forall i, j :: 0 <= i < j < |page| ==> page[i].ts <= page[j].ts && page[i].offset < page[j].offset
  }

  /** What a run has come to lies behind what is still to come. */
  ghost predicate Behind(points: set<Point>, handled: int, script: seq<Step>, k: nat) {
    forall j, p :: k <= j < |script| && script[j].Ingests? && p in script[j].page ==>
      (forall q :: q in points ==> q.ts <= p.ts && q.offset < p.offset) && handled < p.offset
  }

  /** The clock that stood in for the edge lies behind what is still to come. */
  ghost predicate ClockBehind(clock: Option<int>, script: seq<Step>, k: nat) {
    clock.Some? ==>
      forall j, p :: k <= j < |script| && script[j].Ingests? && p in script[j].page ==> clock.value <= p.ts
  }

  lemma StillBehind(was: set<Point>, handled: int, points: set<Point>, handled': int, script: seq<Step>, k: nat)
    requires k < |script| && Orderly(script) && Behind(was, handled, script, k)
    requires points == if script[k].Ingests? then was + Points(script[k].page, |script[k].page|) else was
    requires handled' == handled
      || (script[k].Ingests? && exists i :: 0 <= i < |script[k].page| && handled' == script[k].page[i].offset)
    ensures Behind(points, handled', script, k + 1)
  {
    forall j, p | k < j < |script| && script[j].Ingests? && p in script[j].page
      ensures (forall q :: q in points ==> q.ts <= p.ts && q.offset < p.offset) && handled' < p.offset
    {
      assert Follows(script[k], script[j]);
    }
  }

  lemma StillClockBehind(was: Option<int>, clock: Option<int>, script: seq<Step>, k: nat)
    requires k < |script| && NoDelay(script) && ClockBehind(was, script, k)
    requires clock == was || (script[k].Chooses? && clock == Some(Max(script[k].now, was.GetOr(script[k].now))))
    ensures ClockBehind(clock, script, k + 1)
  {
    forall j | k < j < |script| ensures Later(script[k], script[j]) {}
  }

  class Job {
    const window: nat
    const replay: bool

    var buffer: set<Point>
    var position: int
    var windows: nat
    var phase: Phase
    /** Whether live dispatch is held. */
    var held: bool
    /** The last record the live handler was called with. */
    var handledOffset: int

    ghost var account: Account
    /** The latest clock time taken for the edge of an empty buffer. */
    ghost var clock: Option<int>
    /** What came while live dispatch was held, behind the points read, where
        only the clock of an empty buffer had let the windows go. */
    ghost var missed: set<Point>

    constructor (start: int, window: nat, replay: bool)
      ensures Valid() && held && phase.Idle? && buffer == {} && position == start && clock.None? && handledOffset == -1
      ensures this.window == window && this.replay == replay && windows == 0 && missed == {}
      ensures account == Account(start, start, {}, {}, {}, multiset{}, multiset{})
    {
      this.window, this.replay := window, replay;
      buffer, position, windows, phase, held, handledOffset := {}, start, 0, Idle, true, -1;
      account, clock, missed := Account(start, start, {}, {}, {}, multiset{}, multiset{}), None, {};
    }

    ghost function Now(): Standing
      reads this
    {
      Standing(buffer, position, windows, phase, held, account.calls)
    }

    /** A point behind the points read, where only the clock of an empty buffer
        let the windows go. */
    ghost predicate ClockPassed(p: Point)
      reads this
    {
      account.begin <= p.ts < account.frontier && clock.Some? && account.frontier <= clock.value
    }

    /** The calls a window that was read is about to make. */
    ghost function Pending(): multiset<Point>
      reads this`phase
    {
      if phase.Loaded? then multiset(phase.rows) else multiset{}
    }

    ghost predicate Valid()
      reads this
    {
      && account.Balanced(Pending())
      && account.begin <= position <= account.frontier
      && buffer == account.early + account.live
      && (if held then HeldBack() else Released())
    }

    ghost predicate HeldBack()
      reads this
    {
      && account.live == {} && account.again == multiset{} && handledOffset == -1
      && (windows == 0 && !phase.Loaded? ==> account.calls == multiset{})
      && (match phase
          case Idle => account.frontier == position
          case Chosen(end) => account.frontier == position <= end && Backed(end, account.begin, account.early, clock)
          case Loaded(_, end) => account.frontier == end)
      && Backed(account.frontier, account.begin, account.early, clock)
    }

    ghost predicate Released()
      reads this
    {
      && phase.Idle?
      && (forall p :: p in account.live ==> p.offset <= handledOffset)
      && (forall p :: p in account.early ==> p.ts < account.frontier)
    }

    /** A record of an ingest page: appended, then handled unless live dispatch
        is held, with no hand-over in between. Offsets of new records increase;
        a page whose acknowledgement was lost is delivered again. */
    method Deliver(p: Point)
      requires Valid() && (p !in buffer ==> p.offset > handledOffset)
      modifies this`buffer, this`account, this`missed, this`handledOffset
      ensures Valid()
      ensures buffer == old(buffer) + {p}
      ensures if held then account.calls == old(account).calls else LiveOnly(old(account), account)
      ensures account ==
        if old(held) then (if p in old(buffer) then old(account) else ArriveHeld(old(account), p))
        else if p.offset <= old(handledOffset) then old(account)
        else if p in old(buffer) then ComeAgain(old(account), p)
        else ArriveLive(old(account), p)
      ensures missed == if old(held) && p !in old(buffer) && old(ClockPassed(p)) then old(missed) + {p} else old(missed)
      ensures p !in old(buffer) && InOrder(old(buffer), p) ==> account.again == old(account).again
      ensures p !in old(buffer) && InOrder(old(buffer), p) && old(account).late == old(missed) ==>
        account.late == missed
      ensures handledOffset == old(handledOffset) || handledOffset == p.offset
    {
      if held { DeliverHeld(p); } else { DeliverLive(p); }
    }

    /** A point in time order comes behind the points read only where the clock
        of an empty buffer let the windows go. */
    lemma LateIsMissed(p: Point)
      requires Valid() && held && InOrder(buffer, p)
      ensures account.begin <= p.ts < account.frontier <==> ClockPassed(p)
    {
      assert account.early == buffer;
    }

    method DeliverHeld(p: Point)
      requires Valid() && held
      modifies this`buffer, this`account, this`missed
      ensures Valid() && buffer == old(buffer) + {p}
      ensures missed == if p !in old(buffer) && old(ClockPassed(p)) then old(missed) + {p} else old(missed)
      ensures p !in old(buffer) && InOrder(old(buffer), p) && old(account).late == old(missed) ==>
        account.late == missed
      ensures account == if p in old(buffer) then old(account) else ArriveHeld(old(account), p)
    {
      if p in buffer {
        assert buffer + {p} == buffer;
      } else {
        HoldNew(p);
      }
    }

    method HoldNew(p: Point)
      requires Valid() && held && p !in buffer
      modifies this`buffer, this`account, this`missed
      ensures Valid() && buffer == old(buffer) + {p} && account == ArriveHeld(old(account), p)
      ensures missed == if old(ClockPassed(p)) then old(missed) + {p} else old(missed)
      ensures InOrder(old(buffer), p) && old(account).late == old(missed) ==> account.late == missed
    {
      ghost var a := ArriveHeld(account, p);
      ArriveHeldBalances(account, p, Pending());
      BackedStays(account.frontier, p);
      if phase.Chosen? { BackedStays(phase.end, p); }
      if InOrder(buffer, p) { LateIsMissed(p); }
      if ClockPassed(p) { missed := missed + {p}; }
      assert a.early + a.live == buffer + {p};
      assert a.frontier == account.frontier && a.begin == account.begin && a.early == account.early + {p};
      buffer, account := buffer + {p}, a;
    }

    method DeliverLive(p: Point)
      requires Valid() && !held && (p !in buffer ==> p.offset > handledOffset)
      modifies this`buffer, this`account, this`handledOffset
      ensures Valid() && buffer == old(buffer) + {p}
      ensures (handledOffset == old(handledOffset) || handledOffset == p.offset)
      ensures account.late == old(account).late && account.early == old(account).early
      ensures p !in old(buffer) ==> account.again == old(account).again
      ensures account == if p.offset <= old(handledOffset) then old(account)
                         else if p in old(buffer) then ComeAgain(old(account), p) else ArriveLive(old(account), p)
    {
      if p !in buffer {
        HandleNew(p);
      } else {
        assert buffer + {p} == buffer;
        if p.offset > handledOffset { HandleAgain(p); }
      }
    }

    method HandleNew(p: Point)
      requires Valid() && !held && p !in buffer && p.offset > handledOffset
      modifies this`buffer, this`account, this`handledOffset
      ensures Valid() && buffer == old(buffer) + {p} && handledOffset == p.offset
      ensures account == ArriveLive(old(account), p)
    {
      ghost var a := ArriveLive(account, p);
      ArriveLiveBalances(account, p);
      assert a.early + a.live == buffer + {p};
      assert a.frontier == account.frontier && a.begin == account.begin && a.early == account.early;
      buffer := buffer + {p};
      account, handledOffset := a, p.offset;
    }

    method HandleAgain(p: Point)
      requires Valid() && !held && p in buffer && p.offset > handledOffset
      modifies this`account, this`handledOffset
      ensures Valid() && handledOffset == p.offset
      ensures account == ComeAgain(old(account), p)
    {
      assert p in account.early;
      ComeAgainBalances(account, p);
      account, handledOffset := ComeAgain(account, p), p.offset;
    }

    lemma BackedStays(t: int, p: Point)
      requires Backed(t, account.begin, account.early, clock)
      ensures Backed(t, account.begin, account.early + {p}, clock)
    {
      if q :| q in account.early && t <= q.ts { assert q in account.early + {p}; }
    }

    /** A page of the live ingest, under the page lock. */
    method IngestPage(page: seq<Point>)
      requires Valid()
      requires forall i :: 0 <= i < |page| && page[i] !in buffer ==> page[i].offset > handledOffset
      requires forall i, j :: 0 <= i < j < |page| ==> page[i].offset < page[j].offset
      modifies this`buffer, this`account, this`missed, this`handledOffset
      ensures Valid() && buffer == old(buffer) + Points(page, |page|)
      ensures if held then account.calls == old(account).calls else LiveOnly(old(account), account)
      ensures handledOffset == old(handledOffset) || exists i :: 0 <= i < |page| && handledOffset == page[i].offset
      ensures Punctual(old(buffer), page) ==> account.again == old(account).again
      ensures Punctual(old(buffer), page) && old(account).late == old(missed) ==> account.late == missed
      ensures Prompt(clock, page) ==> missed == old(missed)
    {
      for k := 0 to |page|
        invariant Valid() && buffer == old(buffer) + Points(page, k)
        invariant if held then account.calls == old(account).calls else LiveOnly(old(account), account)
        invariant handledOffset == old(handledOffset) || exists i :: 0 <= i < k && handledOffset == page[i].offset
        invariant Punctual(old(buffer), page) ==> account.again == old(account).again
        invariant Punctual(old(buffer), page) && old(account).late == old(missed) ==> account.late == missed
        invariant Prompt(clock, page) ==> missed == old(missed)
      {
        DeliverNext(page, k, old(buffer));
      }
    }

    /** The next point of a page that was begun at a buffer. */
    method DeliverNext(page: seq<Point>, k: nat, ghost begun: set<Point>)
      requires Valid() && k < |page| && buffer == begun + Points(page, k)
      requires page[k] !in buffer ==> page[k].offset > handledOffset
      modifies this`buffer, this`account, this`missed, this`handledOffset
      ensures Valid() && buffer == begun + Points(page, k + 1)
      ensures if held then account.calls == old(account).calls else LiveOnly(old(account), account)
      ensures handledOffset == old(handledOffset) || handledOffset == page[k].offset
      ensures Punctual(begun, page) ==> account.again == old(account).again
      ensures Punctual(begun, page) && old(account).late == old(missed) ==> account.late == missed
      ensures Prompt(clock, page) ==> missed == old(missed)
    {
      StaysPunctual(begun, page, k);
      Deliver(page[k]);
    }

    /** What moving to a buffered point leaves out is nothing. */
    lemma SkipBacked(to: int)
      requires Valid() && held && to > position && exists q :: q in buffer && q.ts == to
      ensures Backed(to, account.begin, account.early, clock)
    {
      var q :| q in buffer && q.ts == to;
      assert q in account.early;
    }

    /** Where the buffer is all there is, a job skips to its first point; a
        replay that has run no window also goes back to it. */
    method SkipToFirst(first: Option<int>)
      requires Valid() && held && phase.Idle? && IsFirst(buffer, first)
      modifies this`position, this`account, this`missed
      ensures Valid() && account.early == old(account).early && account.again == old(account).again
      ensures (account.late == old(account).late && missed == old(missed)) || (account.late == {} && missed == {})
      ensures account.calls == old(account).calls
      ensures position == if first.Some? && (old(position) < first.value || (replay && windows == 0))
                          then first.value else old(position)
    {
      if first.None? { return; }
      if position < first.value {
        SkipBalances(account, first.value);
        SkipBacked(first.value);
        position, account := first.value, account.(frontier := first.value);
      } else if replay && windows == 0 && first.value < position {
        StartOverBalances(account, first.value);
        if first.value > account.begin { BackedBelow(first.value); }
        position, account, missed := first.value, StartOver(account, first.value), {};
      }
    }

    lemma BackedBelow(t: int)
      requires Valid() && held && t <= account.frontier
      ensures Backed(t, account.begin, account.early, clock)
    {
      if q :| q in account.early && account.frontier <= q.ts { assert t <= q.ts; }
    }

    /** Without ticks there is nothing to run between two buffered points. */
    method SkipToNext(next: Option<int>)
      requires Valid() && held && phase.Idle? && IsOldest(buffer, position, next)
      modifies this`position, this`account
      ensures Valid() && account == old(account).(frontier := position)
      ensures position == if next.Some? then next.value else old(position)
    {
      if next.None? || next.value == position { return; }
      SkipBalances(account, next.value);
      SkipBacked(next.value);
      position, account := next.value, account.(frontier := next.value);
    }

    /** Choose the next window, when the edge is more than one away. */
    method Choose(newest: Option<int>, now: int) returns (handOver: bool)
      requires Valid() && held && phase.Idle? && IsNewest(buffer, newest)
      modifies this`phase, this`clock
      ensures Valid() && buffer == old(buffer) && held
      ensures clock == if newest.None? then Some(Max(now, old(clock).GetOr(now))) else old(clock)
      ensures handOver <==> position + window >= newest.GetOr(now)
      ensures phase == if handOver then Idle else Chosen(position + window)
    {
      if newest.None? { SetClock(now); }
      var edge := newest.GetOr(now);
      if position + window >= edge { return true; }
      EdgeBacks(position + window, newest);
      phase := Chosen(position + window);
      return false;
    }

    /** The clock stands in for the edge of an empty buffer. */
    ghost method SetClock(now: int)
      requires Valid() && held && phase.Idle?
      modifies this`clock
      ensures Valid() && clock == Some(Max(now, old(clock).GetOr(now)))
    {
      var later := Some(Max(now, clock.GetOr(now)));
      if q :| q in account.early && account.frontier <= q.ts {
        assert Backed(account.frontier, account.begin, account.early, later);
      }
      clock := later;
    }

    lemma EdgeBacks(t: int, newest: Option<int>)
      requires Valid() && held && IsNewest(buffer, newest)
      requires newest.Some? ==> t < newest.value
      requires newest.None? ==> clock.Some? && t < clock.value
      ensures Backed(t, account.begin, account.early, clock)
    {
      if newest.Some? {
        var q :| q in buffer && q.ts == newest.value;
        assert q in account.early;
      }
    }

    /** Read the window: from now on its points are about to be handled. */
    method Load(rows: seq<Point>)
      requires Valid() && held && phase.Chosen? && IsRows(rows, buffer, position, phase.end)
      modifies this`phase, this`account
      ensures Valid() && phase == Loaded(rows, old(phase).end) && account == old(account).(frontier := old(phase).end)
    {
      assert buffer == account.early;
      LoadBalances(account, rows, phase.end);
      account := account.(frontier := phase.end);
      phase := Loaded(rows, phase.end);
    }

    /** Handle the window's points, in order, and commit its end. */
    method Handle()
      requires Valid() && held && phase.Loaded?
      modifies this`phase, this`account, this`position, this`windows
      ensures Valid() && phase.Idle? && position == old(phase).end && windows == old(windows) + 1
      ensures account == old(account).(calls := old(account).calls + multiset(old(phase).rows))
    {
      HandleBalances(account, multiset(phase.rows));
      account := account.(calls := account.calls + multiset(phase.rows));
      position, windows := phase.end, windows + 1;
      phase := Idle;
    }

    /** Under the page lock: handle the rest of the buffer and release live
        dispatch, unless the edge moved more than a window away meanwhile. */
    method HandOver(newest: Option<int>, now: int, rows: seq<Point>) returns (done: bool)
      requires Valid() && held && phase.Idle? && IsNewest(buffer, newest)
      requires IsRows(rows, buffer, position, Max(newest.GetOr(now), position) + 1)
      modifies this`account, this`position, this`windows, this`held
      ensures Valid() && held == !done
      ensures done <==> old(position) + window >= newest.GetOr(now)
      ensures account == if !done then old(account)
                         else old(account).(frontier := Max(newest.GetOr(now), old(position)) + 1,
                                            calls := old(account).calls + multiset(rows))
      ensures position == (if done then Max(newest.GetOr(now), old(position)) + 1 else old(position))
      ensures windows == if done then old(windows) + 1 else old(windows)
    {
      var edge := newest.GetOr(now);
      if position + window < edge { return false; }
      Release(Max(edge, position) + 1, rows);
      return true;
    }

    method Release(end: int, rows: seq<Point>)
      requires Valid() && held && phase.Idle? && end > position && IsRows(rows, buffer, position, end)
      requires forall q :: q in buffer ==> q.ts < end
      modifies this`account, this`position, this`windows, this`held
      ensures Valid() && !held && position == end && windows == old(windows) + 1
      ensures account == old(account).(frontier := end, calls := old(account).calls + multiset(rows))
    {
      assert buffer == account.early;
      LoadBalances(account, rows, end);
      HandleBalances(account.(frontier := end), multiset(rows));
      account := account.(frontier := end, calls := account.calls + multiset(rows));
      position, windows, held := end, windows + 1, false;
    }

    /** One step, if it is possible. */
    method Take(step: Step)
      requires Valid()
      requires step.Ingests? ==> Punctual(buffer, step.page)
      requires step.Ingests? ==> forall p :: p in step.page ==> handledOffset < p.offset
      modifies this
      ensures Valid() && account.again == old(account).again
      ensures old(account).late == old(missed) ==> account.late == missed
      ensures missed == {} || missed == old(missed) || (step.Ingests? && !Prompt(old(clock), step.page))
      ensures buffer == if step.Ingests? then old(buffer) + Points(step.page, |step.page|) else old(buffer)
      ensures clock == old(clock) || (step.Chooses? && clock == Some(Max(step.now, old(clock).GetOr(step.now))))
      ensures handledOffset == old(handledOffset)
        || (step.Ingests? && exists i :: 0 <= i < |step.page| && handledOffset == step.page[i].offset)
      ensures Did(window, replay, old(Now()), step, Now())
    {
      if step.Ingests? { TakePage(step.page); } else { TakeRunner(step); }
    }

    method TakePage(page: seq<Point>)
      requires Valid() && Punctual(buffer, page) && forall p :: p in page ==> handledOffset < p.offset
      modifies this`buffer, this`account, this`missed, this`handledOffset
      ensures Valid() && account.again == old(account).again
      ensures old(account).late == old(missed) ==> account.late == missed
      ensures missed == old(missed) || !Prompt(clock, page)
      ensures handledOffset == old(handledOffset) || exists i :: 0 <= i < |page| && handledOffset == page[i].offset
      ensures Did(window, replay, old(Now()), Ingests(page), Now())
    {
      ghost var was := account;
      IngestPage(page);
      if !held { LiveCalls(was, account, page); }
    }

    /** A step of the runner, if it is possible. */
    method TakeRunner(step: Step)
      requires Valid() && !step.Ingests?
      modifies this`phase, this`account, this`position, this`windows, this`held, this`clock, this`missed
      ensures Valid() && account.again == old(account).again
      ensures (account.late == old(account).late && missed == old(missed)) || (account.late == {} && missed == {})
      ensures clock == old(clock) || (step.Chooses? && clock == Some(Max(step.now, old(clock).GetOr(step.now))))
      ensures Did(window, replay, old(Now()), step, Now())
    {
      if !held { return; }
      match phase
      case Idle => TakeIdle(step);
      case Chosen(_) => TakeChosen(step);
      case Loaded(_, _) => TakeLoaded(step);
    }

    /** A window is chosen. */
    method TakeChosen(step: Step)
      requires Valid() && held && phase.Chosen? && !step.Ingests?
      modifies this`phase, this`account
      ensures Valid() && account.again == old(account).again && account.late == old(account).late
      ensures Did(window, replay, old(Now()), step, Now())
    {
      if step.Loads? && IsRows(step.rows, buffer, position, phase.end) { Load(step.rows); }
    }

    /** A window's points were read. */
    method TakeLoaded(step: Step)
      requires Valid() && held && phase.Loaded? && !step.Ingests?
      modifies this`phase, this`account, this`position, this`windows
      ensures Valid() && account.again == old(account).again && account.late == old(account).late
      ensures Did(window, replay, old(Now()), step, Now())
    {
      if step.Handles? { Handle(); }
    }

    method TakeIdle(step: Step)
      requires Valid() && held && phase.Idle? && !step.Ingests?
      modifies this`phase, this`account, this`position, this`windows, this`held, this`clock, this`missed
      ensures Valid() && account.again == old(account).again
      ensures (account.late == old(account).late && missed == old(missed)) || (account.late == {} && missed == {})
      ensures clock == old(clock) || (step.Chooses? && clock == Some(Max(step.now, old(clock).GetOr(step.now))))
      ensures Did(window, replay, old(Now()), step, Now())
    {
      match step
      case ToFirst(_) => TakeSkip(step);
      case ToNext(_) => TakeSkip(step);
      case Chooses(newest, now) => TakeChoice(newest, now);
      case HandsOver(newest, now, rows) => TakeHandOver(newest, now, rows);
      case _ =>
    }

    method TakeChoice(newest: Option<int>, now: int)
      requires Valid() && held && phase.Idle?
      modifies this`phase, this`clock
      ensures Valid() && (clock == old(clock) || clock == Some(Max(now, old(clock).GetOr(now))))
      ensures Did(window, replay, old(Now()), Chooses(newest, now), Now())
    {
      if IsNewest(buffer, newest) { var _ := Choose(newest, now); }
    }

    method TakeSkip(step: Step)
      requires Valid() && held && phase.Idle? && (step.ToFirst? || step.ToNext?)
      modifies this`account, this`position, this`missed
      ensures Valid() && account.again == old(account).again
      ensures (account.late == old(account).late && missed == old(missed)) || (account.late == {} && missed == {})
      ensures Did(window, replay, old(Now()), step, Now())
    {
      if step.ToFirst? {
        if IsFirst(buffer, step.first) { SkipToFirst(step.first); }
      } else if IsOldest(buffer, position, step.next) {
        SkipToNext(step.next);
      }
    }

    method TakeHandOver(newest: Option<int>, now: int, rows: seq<Point>)
      requires Valid() && held && phase.Idle?
      modifies this`account, this`position, this`windows, this`held
      ensures Valid() && account.again == old(account).again && account.late == old(account).late
      ensures Did(window, replay, old(Now()), HandsOver(newest, now, rows), Now())
    {
      if IsNewest(buffer, newest) && IsRows(rows, buffer, position, Max(newest.GetOr(now), position) + 1) {
        var _ := HandOver(newest, now, rows);
      }
    }

    /** The next step of a run in order. */
    method TakeNext(script: seq<Step>, k: nat)
      requires Valid() && k < |script| && Orderly(script) && Behind(buffer, handledOffset, script, k)
      requires account.late == missed && account.again == multiset{}
      modifies this
      ensures Valid() && account.late == missed && account.again == multiset{}
      ensures Behind(buffer, handledOffset, script, k + 1)
      ensures NoDelay(script) && old(missed) == {} && old(ClockBehind(clock, script, k)) ==>
        missed == {} && ClockBehind(clock, script, k + 1)
      ensures Did(window, replay, old(Now()), script[k], Now())
    {
      var step := script[k];
      StepPunctual(script, k);
      ghost var was, handled, read := buffer, handledOffset, clock;
      Take(step);
      StillBehind(was, handled, buffer, handledOffset, script, k);
      if NoDelay(script) && ClockBehind(read, script, k) { StillClockBehind(read, clock, script, k); }
    }

    lemma StepPunctual(script: seq<Step>, k: nat)
      requires k < |script| && Orderly(script) && Behind(buffer, handledOffset, script, k)
      ensures script[k].Ingests? ==> Punctual(buffer, script[k].page)
    {
      if !script[k].Ingests? { return; }
      var page := script[k].page;
      forall i | 0 <= i < |page| ensures page[i] !in buffer && InOrder(buffer, page[i]) {
        assert page[i] in page;
      }
    }

    /** The handler was called exactly once with every point from the job's
        start on, and with none of those that came earlier from before it. */
    ghost predicate HandledOnceEach()
      reads this
    {
      forall p :: p in buffer ==> account.calls[p] == if p in account.early && p.ts < account.begin then 0 else 1
    }

    /** Over every run in which nothing fails and records come in stream and
        time order: once live dispatch is released, every point from the job's
        start on was handled exactly once, by a window, by the hand-over or
        live, exactly when none came behind where the clock of an empty buffer
        had let the windows go. None does where no record is older than a clock
        read before it came. `path` is where the job stood before each step and
        behind the last: every step did what it is for. */
    method Run(script: seq<Step>) returns (ghost path: seq<Standing>)
      requires Valid() && buffer == {} && clock.None? && handledOffset == -1
      requires account.late == {} && missed == {} && account.again == multiset{}
      requires Orderly(script)
      modifies this
      ensures Valid() && account.again == multiset{}
      ensures !held ==> (HandledOnceEach() <==> missed == {})
      ensures NoDelay(script) ==> missed == {}
      ensures IsPath(window, replay, path, script, |script|) && path[0] == old(Now()) && path[|script|] == Now()
    {
      path := [Now()];
      for k := 0 to |script|
        invariant IsPath(window, replay, path, script, k) && path[0] == old(Now()) && path[k] == Now()
        invariant Valid() && account.late == missed && account.again == multiset{}
        invariant Behind(buffer, handledOffset, script, k)
        invariant NoDelay(script) ==> missed == {} && ClockBehind(clock, script, k)
      {
        TakeNext(script, k);
        PathOn(window, replay, path, script, k, Now());
        path := path + [Now()];
      }
      if !held { ExactlyOnce(); }
    }

    /** Over every run, once live dispatch is released: the handler was called
        exactly once with every point, but not with those from before the
        job's start, exactly when what came again after the release is what
        had come behind the points read, once each. */
    lemma ExactlyOnce()
      requires Valid() && !held
      ensures HandledOnceEach() <==> account.again == multiset(account.late)
    {
      var a := account;
      forall p ensures a.calls[p] == a.Due(p) { assert a.calls[p] + multiset{}[p] == a.Due(p); }
      if HandledOnceEach() {
        forall p ensures a.again[p] == multiset(a.late)[p] {
          if p in buffer { assert a.calls[p] == a.Due(p); } else { assert !(p in a.again) && !(p in a.late); }
        }
      }
    }
  }

  lemma OneRow(p: Point)
    ensures IsRows([p], {p}, p.ts, p.ts + 1)
  {
    assert Range({p}, p.ts, p.ts + 1) == {p};
  }

  /** A job that one point came to before it handed over. */
  method HandledOnce(p: Point) returns (job: Job)
    ensures fresh(job) && job.Valid() && !job.held && job.buffer == {p} && job.handledOffset == -1
    ensures job.account.late == {} && job.account.calls == multiset{p}
  {
    job := new Job(p.ts, 0, false);
    job.DeliverHeld(p);
    OneRow(p);
    job.Release(p.ts + 1, [p]);
    assert multiset{} + multiset([p]) == multiset{p};
  }

  /** A point whose page was processed while live dispatch was held, and not
      acknowledged before the hand-over, is handled twice. */
  method HandledTwice(p: Point) returns (job: Job)
    ensures fresh(job) && job.Valid() && !job.held && job.account.late == {} && job.account.calls[p] == 2
  {
    job := HandledOnce(p);
    job.HandleAgain(p);
  }

  lemma NoRows(points: set<Point>, from: int, end: int)
    requires NoneIn(points, from, end)
    ensures IsRows([], points, from, end)
  {
    assert Range(points, from, end) == {};
  }

  /** A job that chose a window by the clock of an empty buffer: windows are 5
      long, from 0 on, and the clock reads 10. */
  method ChoseByClock() returns (job: Job)
    ensures fresh(job) && job.Valid() && job.held && job.window == 5 && job.position == 0 && job.phase == Chosen(5)
    ensures job.buffer == {} && job.missed == {} && job.clock == Some(10)
    ensures job.account == Account(0, 0, {}, {}, {}, multiset{}, multiset{})
  {
    job := new Job(0, 5, false);
    var handsOver := job.Choose(None, 10);
  }

  /** It reads the window and finds nothing. */
  method ReadNothing() returns (job: Job)
    ensures fresh(job) && job.Valid() && job.held && job.window == 5 && job.position == 0 && job.phase == Loaded([], 5)
    ensures job.buffer == {} && job.missed == {} && job.clock == Some(10)
    ensures job.account == Account(0, 5, {}, {}, {}, multiset{}, multiset{})
  {
    job := ChoseByClock();
    NoRows({}, 0, 5);
    job.Load([]);
  }

  /** It commits the window; then the record comes. */
  method CameBehind() returns (job: Job)
    ensures fresh(job) && job.Valid() && job.held && job.window == 5 && job.position == 5 && job.phase.Idle?
    ensures job.buffer == {Point(3, 1)} && job.missed == {Point(3, 1)} && job.account.begin == 0
    ensures job.account.calls == multiset{}
  {
    job := ReadNothing();
    job.Handle();
    assert job.account.calls == multiset{};
    job.DeliverHeld(Point(3, 1));
  }

  /** One record, in order, with nothing failing, and it is never handled: it
      comes while live dispatch is held, in a window the clock let go. */
  method NeverHandled() returns (job: Job)
    ensures fresh(job) && job.Valid() && !job.held && job.missed == {Point(3, 1)}
    ensures job.account.begin == 0 && job.buffer == {Point(3, 1)} && job.account.calls[Point(3, 1)] == 0
  {
    job := CameBehind();
    NoRows({Point(3, 1)}, 5, 6);
    var done := job.HandOver(Some(3), 10, []);
    assert job.account.calls == multiset{};
  }

  predicate IsFirst(points: set<Point>, first: Option<int>) {
    && (first.None? <==> points == {})
    && (first.Some? ==> exists q :: q in points && q.ts == first.value)
    && (first.Some? ==> forall q :: q in points ==> q.ts >= first.value)
  }
}
