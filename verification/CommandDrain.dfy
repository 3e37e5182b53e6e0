/** The drain of the `commands` stream: pages from the cursor go through the
    executor, answers that stand in the log are noted, and a full page is read
    past for the answers to its commands. */
module CommandDrain {
  import opened Options
  import opened NodeStream
  import opened CommandLedger
  import opened CommandExecutor
  import CursorDrain

  /** A record of the stream, as far as the executor cares: a declared command,
      or an answer at the topic of one (`progress` is a 202). */
  datatype Item = Cmd(command: Command) | Ack(correlation: string, progress: bool) | Other {

    function Id(): string {
      match this
      case Cmd(c) => c.correlation
      case Ack(id, _) => id
      case Other => ""
    }

    /** Whether it says that a command was answered. */
    predicate Answers(id: string) { id != "" && this == Ack(id, false) }
  }

  type Log = seq<Record<Item>>

  /** The surroundings of one drain: the answer to its n-th fetch, the last
      offset the node had at that fetch, what happens while the command at an
      offset is handled, and the reply to an acknowledgement. */
  datatype Surroundings = Surroundings(fetch: (nat, nat) -> Option<Page<Item>>, shown: nat -> nat,
                                       at: nat -> Weather, ack: nat -> CursorDrain.Reply)

  /** Where a run of the handler stood: the command's offset, the log's end
      when its page was read, how much the node had pruned by then, and the
      stretch of the log that had been read since the cursor was last at the
      end of what was read. */
  datatype Standing = Standing(offset: nat, shown: nat, pruned: nat, window: nat, reached: nat)

  datatype Finish = Drained | Failed | Gapped | Stopped | Crashed

  /** One step of a service's life. */
  datatype Step = Awake(head: nat, around: Surroundings) | Crash(fuel: nat)

  /** An answer to `id` lies in the log between two offsets. */
  ghost predicate AnswerBetween(log: Log, keep: Item -> bool, id: string, after: int, upto: int) {
    exists r :: IsAnswer(log, keep, r, id) && after < r.offset <= upto
  }

  ghost predicate IsAnswer(log: Log, keep: Item -> bool, r: Record<Item>, id: string) {
    r in log && keep(r.body) && r.body.Answers(id)
  }

  /** The ids that come up between two offsets. */
  ghost function IdsIn(log: Log, after: nat, before: nat): set<string> {
    set r | r in log && after < r.offset < before && r.body.Id() != "" :: r.body.Id()
  }

  /** A longer stretch has no fewer ids. */
  lemma MoreIds(log: Log, after: nat, before: nat, before': nat)
    requires before <= before'
    ensures IdsIn(log, after, before) <= IdsIn(log, after, before')
    ensures |IdsIn(log, after, before)| <= |IdsIn(log, after, before')|
  {
    SubsetSize(IdsIn(log, after, before), IdsIn(log, after, before'));
  }

  lemma {:induction false} SubsetSize(a: set<string>, b: set<string>)
    requires a <= b
    ensures |a| <= |b|
  {
    if a != {} {
      var x :| x in a;
      SubsetSize(a - {x}, b - {x});
    }
  }

  /** Every answer in the log between two offsets is among `answered`. */
  ghost predicate AllNoted(log: Log, keep: Item -> bool, noted: seq<string>, after: int, upto: int) {
    forall r, id :: IsAnswer(log, keep, r, id) && after < r.offset < upto ==> id in noted
  }

  class Drain {
    const executor: Executor
    const stream: CursorDrain.Stream<Item>
    const pageSize: nat

    /** Up to where a scan ahead noted the answers. */
    var scannedTo: nat

    /** Where the cursor stood when this process started, or when it last was at
        the end of what was read; up to where was read; what was remembered
        since; and how much of the log a scan ahead found pruned. */
    ghost var window: nat
    ghost var reached: nat
    ghost var recent: seq<string>
    ghost var pruned: nat
    /** The ids whose answer the node confirmed. */
    ghost var confirmed: set<string>
    /** Where each run of a handler stood. */
    ghost var standings: seq<Standing>

    constructor (log: Log, keep: Item -> bool, reportsStart: bool, pageSize: nat, fuel: nat)
      requires IsLog(log)
      ensures Valid() && fresh(executor) && fresh(stream)
      ensures stream.log == log && stream.keep == keep
      ensures stream.reportsStart == reportsStart && this.pageSize == pageSize
    {
      var e := new Executor(fuel);
      var s := new CursorDrain.Stream(log, keep, reportsStart);
      executor, stream, this.pageSize := e, s, pageSize;
      scannedTo, window, reached, recent, pruned, confirmed, standings := 0, 0, 0, [], 0, {}, [];
    }

    /** The memory of answered commands is large enough for the ids between two
        offsets, and the node reads ahead. */
    ghost predicate Fits(after: nat, before: nat) {
      |IdsIn(stream.log, after, before)| <= ANSWERED_LIMIT && pageSize > 0 && stream.reportsStart
    }

    /** It is for what was read since the cursor was last at the end of what
        was read. */
    ghost predicate Ample()
      reads this`window, this`reached
    {
      Fits(window, reached)
    }

    ghost predicate Valid()
      reads this, executor, stream
    {
      && stream.Valid()
      && Good(executor.Done())
      && Memory()
      && CursorBehindAnswers()
      && NoRunWasAnswered()
      && window <= stream.cursor && scannedTo <= reached
      && (reached <= stream.cursor + 1 ==> window == stream.cursor)
      && (Ample() ==> Recalled() && Noted(Max(stream.cursor + 1, scannedTo)))
    }

    /** What is remembered was confirmed or stands in the log; what was
        confirmed was published. */
    ghost predicate Memory()
      reads this`confirmed, executor`answered, executor`sent
    {
      && Unique(executor.answered)
      && (forall id :: id in executor.answered ==> Answered(id))
      && (forall id :: id in confirmed ==> SentFor(executor.sent, id))
    }

    /** What was remembered recently is remembered still, behind all else. */
    ghost predicate Recalled()
      reads this`recent, this`window, this`reached, executor`answered
    {
      IsTail(recent, executor.answered) && forall a :: a in recent ==> a in IdsIn(stream.log, window, reached)
    }

    /** The node confirmed an answer for `id`, or one stands in the log. */
    ghost predicate Answered(id: string)
      reads this`confirmed
    {
      id in confirmed || exists r :: IsAnswer(stream.log, stream.keep, r, id)
    }

    /** The cursor passes no command that can be answered before its answer
        was confirmed or seen. */
    ghost predicate CursorBehindAnswers()
      reads this`confirmed, stream`settled
    {
      forall r :: r in stream.settled && r.body.Cmd? && r.body.command.correlation != "" ==>
        Answered(r.body.command.correlation)
    }

    /** No handler ran for a command whose answer stood behind it in the log,
        where the memory was large enough for what had been read by then. */
    ghost predicate NoRunWasAnswered()
      reads this`standings, executor`runs
    {
      && |standings| == |executor.runs|
      && (forall i :: 0 <= i < |standings| && Fits(standings[i].window, standings[i].reached) ==>
            Unanswered(executor.runs[i].correlation, standings[i]))
    }

    ghost predicate Unanswered(id: string, at: Standing) {
      !AnswerBetween(stream.log, stream.keep, id, Max(at.offset, at.pruned), at.shown)
    }

    /** Every answer this process came by recently is remembered, up to an offset. */
    ghost predicate Noted(upto: int)
      reads this`recent, this`window, this`pruned
    {
      AllNoted(stream.log, stream.keep, recent, Max(window, pruned), upto)
    }

    /** What was remembered recently is not forgotten. */
    ghost predicate Keeps(was: seq<string>)
      reads this
    {
      Ample() ==> forall a :: a in was ==> a in recent
    }

    /** The node's part: pages are pages, and a short one reaches the log's end. */
    ghost predicate Honest(around: Surroundings) {
      && (forall n, from :: from > 0 && around.fetch(n, from).Some? ==>
            HonestPage(around, n, from, around.fetch(n, from).value))
      && (forall n, m :: n <= m ==> around.shown(n) <= around.shown(m))
    }

    /** The node answers every read with a page without a gap that moves on or
        finds the head, and takes every acknowledgement. */
    ghost predicate Answers(head: nat, around: Surroundings) {
      forall n: nat, from: nat {:trigger around.fetch(n, from)} :: from > 0 ==>
        && around.fetch(n, from).Some? && around.ack(n).Taken? && around.fetch(n, from).value.gap.None?
        && Serves(around.fetch(n, from).value, head, around.ack(n))
    }

    /** A page that can be acknowledged, or finds the head. */
    static ghost predicate Serves(page: Page<Item>, head: nat, reply: CursorDrain.Reply) {
      if page.AckOffset().Some? then reply.Taken? else page.next > head
    }

    ghost predicate FetchFails(around: Surroundings) {
      exists n: nat, from: nat :: from > 0 && around.fetch(n, from).None?
    }

    /** Nothing stops the service: every answer is sent and confirmed. */
    ghost predicate Calm(around: Surroundings) { forall o :: GoesOn(around.at(o)) }

    static predicate GoesOn(w: Weather) { w.sends > 0 && w.confirmed && !w.link.ServiceStops? }

    ghost predicate HonestPage(around: Surroundings, n: nat, from: nat, page: Page<Item>) {
      && IsPage(stream.log, stream.keep, from, page)
      && (page.start.Some? <==> stream.reportsStart)
      && (|page.records| < pageSize ==> page.next > around.shown(n))
    }

    /** Remember one id. */
    method Remember(id: string)
      requires Valid() && id in IdsIn(stream.log, window, reached) && Answered(id)
      modifies executor`answered, this`recent
      ensures Valid() && Keeps(old(recent)) && (Ample() ==> id in recent)
    {
      RemembersUnique(executor.answered, id);
      if Ample() { RemembersRecent(executor.answered, recent, id, IdsIn(stream.log, window, reached)); }
      executor.answered, recent := Remembered(executor.answered, id), Later(recent, id);
    }

    /** Note the answers of records that were read. */
    method NoteAnswers(records: seq<Record<Item>>)
      requires Valid()
      requires forall r :: r in records ==> r in stream.log && stream.keep(r.body) && window < r.offset < reached
      modifies executor`answered, this`recent
      ensures Valid() && Keeps(old(recent))
      ensures Ample() ==> forall r, id :: r in records && r.body.Answers(id) ==> id in recent
    {
      for k := 0 to |records|
        invariant Valid() && Keeps(old(recent))
        invariant Ample() ==> forall r, id :: r in records[..k] && r.body.Answers(id) ==> id in recent
      {
        var r := records[k];
        if r.body.Ack? && !r.body.progress && r.body.correlation != "" {
          assert IsAnswer(stream.log, stream.keep, r, r.body.correlation);
          Remember(r.body.correlation);
        }
      }
    }

    /** Read on for answers, without moving the cursor, until the log's end. */
    method ScanAhead(from: nat, around: Surroundings, n: nat) returns (m: nat, ok: bool)
      requires Valid() && Honest(around) && from > stream.cursor && (Ample() ==> Noted(from))
      modifies this`scannedTo, this`pruned, this`reached, this`recent, executor`answered
      ensures Valid() && m >= n && pruned >= old(pruned) && reached >= old(reached)
      ensures Keeps(old(recent)) && (Ample() ==> old(Ample()))
      ensures ok && Ample() ==> Noted(around.shown(n) + 1)
      ensures !ok ==> FetchFails(around)
      ensures m > n && scannedTo >= old(scannedTo) && (!stream.reportsStart ==> m == n + 1)
      ensures ok && stream.reportsStart && pageSize > 0 ==> scannedTo > around.shown(n)
    {
      var offset := Max(from, scannedTo);
      m := n;
      while true
        invariant Valid() && m >= n && pruned >= old(pruned) && reached >= old(reached) && offset >= from
        invariant Ample() ==> Noted(offset)
        invariant Keeps(old(recent)) && (Ample() ==> old(Ample()))
        invariant scannedTo >= old(scannedTo) && (!stream.reportsStart ==> m == n)
        decreases Head(stream.log) + 1 - offset
      {
        var answer := around.fetch(m, offset);
        if answer.None? { return m + 1, false; }
        var page := answer.value;
        assert HonestPage(around, m, offset, page);
        if page.start.None? { return m + 1, true; }
        assert around.shown(n) <= around.shown(m);
        assert |page.records| < pageSize ==> page.next > around.shown(n);
        PageMoves(page, offset);
        ScanPage(page, offset);
        m := m + 1;
        if |page.records| < pageSize || page.next <= offset { return m, true; }
        offset := page.next;
      }
    }

    /** Note the answers of a page that was read ahead. */
    method ScanPage(page: Page<Item>, from: nat)
      requires Valid() && IsPage(stream.log, stream.keep, from, page)
      requires from > stream.cursor && (Ample() ==> Noted(from))
      modifies this`scannedTo, this`pruned, this`reached, this`recent, executor`answered
      ensures Valid() && pruned >= old(pruned) && reached >= old(reached) && scannedTo == Max(old(scannedTo), page.next)
      ensures Keeps(old(recent)) && (Ample() ==> old(Ample()) && Noted(page.next))
    {
      NotePage(page, from);
      scannedTo := Max(scannedTo, page.next);
    }

    /** A full page moves on. */
    lemma PageMoves(page: Page<Item>, from: nat)
      requires IsLog(stream.log) && IsPage(stream.log, stream.keep, from, page)
      ensures page.records != [] ==> page.next > from
    {
      SelectExactly(stream.log, stream.keep, Floor(page, from), page.next);
      assert page.records != [] ==> Kept(stream.log, stream.keep, Floor(page, from), page.next, page.records[0]);
    }

    /** Note the answers of a page that was read from `from`. */
    method NotePage(page: Page<Item>, from: nat)
      requires Valid() && IsPage(stream.log, stream.keep, from, page)
      requires from > stream.cursor && (Ample() ==> Noted(from))
      modifies this`pruned, this`reached, this`recent, executor`answered
      ensures Valid() && pruned >= old(pruned) && (page.gap.None? ==> pruned == old(pruned))
      ensures reached == Max(old(reached), page.next)
      ensures Keeps(old(recent)) && (Ample() ==> old(Ample()))
      ensures Ample() ==> Noted(page.next)
    {
      PageRecords(page, from);
      Reach(page.next);
      NoteAnswers(page.records);
      Pruned(page, from);
    }

    lemma PageRecords(page: Page<Item>, from: nat)
      requires IsLog(stream.log) && IsPage(stream.log, stream.keep, from, page)
      ensures forall r :: r in page.records ==> r in stream.log && stream.keep(r.body) && from <= r.offset < page.next
    {
      SelectExactly(stream.log, stream.keep, Floor(page, from), page.next);
      forall r | r in page.records
        ensures r in stream.log && stream.keep(r.body) && from <= r.offset < page.next
      {
        var i :| 0 <= i < |page.records| && page.records[i] == r;
        assert Kept(stream.log, stream.keep, Floor(page, from), page.next, page.records[i]);
      }
    }

    /** A page's answers are noted: all up to its end are, but for what the
        node had pruned. */
    ghost method Pruned(page: Page<Item>, from: nat)
      requires Valid() && IsPage(stream.log, stream.keep, from, page) && (Ample() ==> Noted(from))
      requires Ample() ==> forall r, id :: r in page.records && r.body.Answers(id) ==> id in recent
      modifies this`pruned
      ensures Valid() && pruned >= old(pruned) && (page.gap.None? ==> pruned == old(pruned))
      ensures Ample() ==> Noted(page.next)
    {
      SelectExactly(stream.log, stream.keep, Floor(page, from), page.next);
      pruned := Max(pruned, if page.gap.Some? then page.gap.value.upto else 0);
    }

    /** More of the log is read. */
    ghost method Reach(upto: nat)
      requires Valid()
      modifies this`reached
      ensures Valid() && reached == Max(old(reached), upto)
      ensures Ample() ==> old(Ample())
    {
      MoreIds(stream.log, window, reached, Max(reached, upto));
      reached := Max(reached, upto);
    }

    /** Have the executor handle one delivery. */
    method Deliver(c: Command, w: Weather) returns (end: Ending)
      requires Unique(executor.answered)
      requires Good(executor.Done()) && forall id :: id in confirmed ==> SentFor(executor.sent, id)
      modifies executor
      ensures Good(executor.Done()) && forall id :: id in confirmed ==> SentFor(executor.sent, id)
      ensures executor.runs == old(executor.runs)
        || (executor.runs == old(executor.runs) + [c] && c.correlation !in old(executor.answered))
      ensures Unique(executor.answered)
      ensures executor.answered == CommandExecutor.Noted(old(executor.answered), c, end)
      ensures end.Settled? && c.correlation != "" ==> SentFor(executor.sent, c.correlation)
      ensures end.Ignored? ==> c.correlation in old(executor.answered)
      ensures (end.Stopping? ==> !GoesOn(w)) && (end.Crashed? ==> executor.fuel == 0)
    {
      ghost var u, answered := executor.Done(), Set(executor.answered);
      ghost var n := Min(executor.fuel, |Plan(u.ledger, answered, c, w)|);
      Delivered(u, answered, c, w, n, confirmed);
      RemembersUnique(executor.answered, c.correlation);
      end := executor.Handle(c, w);
      assert end.Settled? && c.correlation != "" ==> executor.sent[|executor.sent| - 1].0 == c.correlation;
    }

    /** Handle one delivery of a command: what is kept is kept, whatever comes of it. */
    method HandleCommand(c: Command, w: Weather, ghost at: Standing) returns (end: Ending)
      requires Valid() && (c.correlation != "" ==> c.correlation in IdsIn(stream.log, window, reached))
      requires Fits(at.window, at.reached) && c.correlation !in executor.answered ==> Unanswered(c.correlation, at)
      modifies this`confirmed, this`standings, this`recent, executor
      ensures Valid()
      ensures Keeps(old(recent))
      ensures (end.Settled? || end.Ignored?) && c.correlation != "" ==> Answered(c.correlation)
      ensures standings == if executor.runs == old(executor.runs) then old(standings) else old(standings) + [at]
      ensures (end.Stopping? ==> !GoesOn(w)) && (end.Crashed? ==> executor.fuel == 0)
    {
      ghost var before, was := executor.runs, executor.answered;
      end := Deliver(c, w);
      RanAt(c, before, was, at);
      AnsweredNow(c, end, was);
    }

    /** Where a run stood, if there was one. */
    ghost method RanAt(c: Command, before: seq<Command>, was: seq<string>, at: Standing)
      requires |standings| == |before|
      requires forall i :: 0 <= i < |standings| && Fits(standings[i].window, standings[i].reached) ==>
        Unanswered(before[i].correlation, standings[i])
      requires executor.runs == before || (executor.runs == before + [c] && c.correlation !in was)
      requires Fits(at.window, at.reached) && c.correlation !in was ==> Unanswered(c.correlation, at)
      modifies this`standings
      ensures NoRunWasAnswered()
      ensures standings == if executor.runs == before then old(standings) else old(standings) + [at]
    {
      if executor.runs != before { standings := standings + [at]; }
    }

    /** A confirmed answer is remembered. */
    ghost method AnsweredNow(c: Command, end: Ending, was: seq<string>)
      requires Unique(was) && (forall id :: id in was ==> Answered(id)) && CursorBehindAnswers()
      requires executor.answered == CommandExecutor.Noted(was, c, end) && Unique(executor.answered)
      requires forall id :: id in confirmed ==> SentFor(executor.sent, id)
      requires end.Settled? && c.correlation != "" ==> SentFor(executor.sent, c.correlation)
      requires c.correlation != "" ==> c.correlation in IdsIn(stream.log, window, reached)
      requires Ample() ==> IsTail(recent, was) && forall a :: a in recent ==> a in IdsIn(stream.log, window, reached)
      modifies this`confirmed, this`recent
      ensures Memory() && CursorBehindAnswers() && (Ample() ==> Recalled()) && Keeps(old(recent))
      ensures old(confirmed) <= confirmed && (end.Settled? && c.correlation != "" ==> c.correlation in confirmed)
    {
      if end.Settled? && c.correlation != "" {
        confirmed := confirmed + {c.correlation};
        if Ample() { RemembersRecent(was, recent, c.correlation, IdsIn(stream.log, window, reached)); }
        recent := Later(recent, c.correlation);
      }
    }

    lemma ComesUp(r: Record<Item>)
      requires r in stream.log && window < r.offset < reached
      ensures r.body.Id() != "" ==> r.body.Id() in IdsIn(stream.log, window, reached)
    {
    }

    /** A command whose answer is not remembered has none in what was noted. */
    lemma NoneBehind(at: Standing, id: string)
      requires Valid() && Ample() && Noted(at.shown + 1) && id !in executor.answered
      requires at.offset > stream.cursor && at.pruned == pruned
      ensures Unanswered(id, at)
    {
      InTail(recent, executor.answered);
    }

    /** Handle one record behind the cursor; `ok` when it is settled. */
    method HandleRecord(r: Record<Item>, w: Weather, ghost shown: nat) returns (finish: Option<Finish>)
      requires Valid() && r in stream.log && stream.keep(r.body) && stream.cursor < r.offset < reached
      requires Ample() && r.body.Cmd? && r.body.Id() != "" && r.body.Id() !in executor.answered ==> Noted(shown + 1)
      modifies this`confirmed, this`standings, this`recent, executor, stream`settled
      ensures Valid() && finish != Some(Drained)
      ensures Keeps(old(recent))
      ensures standings == if executor.runs == old(executor.runs) then old(standings)
                           else old(standings) + [Standing(r.offset, shown, pruned, window, reached)]
      ensures stream.settled == if finish.None? then old(stream.settled) + {r} else old(stream.settled)
      ensures finish.None? || finish == Some(Stopped) || finish == Some(Finish.Crashed)
      ensures (finish == Some(Stopped) ==> !GoesOn(w)) && (finish == Some(Finish.Crashed) ==> executor.fuel == 0)
    {
      if r.body.Cmd? {
        var end := RunCommand(r, w, shown);
        if end.Crashed? { return Some(Finish.Crashed); }
        if end.Stopping? { return Some(Stopped); }
      }
      Settle(r);
      return None;
    }

    /** Handle the command of a record. */
    method RunCommand(r: Record<Item>, w: Weather, ghost shown: nat) returns (end: Ending)
      requires Valid() && r in stream.log && stream.keep(r.body) && stream.cursor < r.offset < reached && r.body.Cmd?
      requires Ample() && r.body.Id() != "" && r.body.Id() !in executor.answered ==> Noted(shown + 1)
      modifies this`confirmed, this`standings, this`recent, executor
      ensures Valid() && Keeps(old(recent))
      ensures (end.Settled? || end.Ignored?) && r.body.Id() != "" ==> Answered(r.body.Id())
      ensures standings == if executor.runs == old(executor.runs) then old(standings)
                           else old(standings) + [Standing(r.offset, shown, pruned, window, reached)]
      ensures (end.Stopping? ==> !GoesOn(w)) && (end.Crashed? ==> executor.fuel == 0)
    {
      var c := r.body.command;
      ghost var at := Standing(r.offset, shown, pruned, window, reached);
      ComesUp(r);
      if Ample() && c.correlation != "" && c.correlation !in executor.answered { NoneBehind(at, c.correlation); }
      end := HandleCommand(c, w, at);
    }

    /** A record is settled: a command once it is answered. */
    ghost method Settle(r: Record<Item>)
      requires Valid() && (r.body.Cmd? && r.body.Id() != "" ==> Answered(r.body.Id()))
      modifies stream`settled
      ensures Valid() && stream.settled == old(stream.settled) + {r}
    {
      stream.settled := stream.settled + {r};
    }

    /** Whether to read ahead before handling a record: a full page may end
        before the answer to one of its commands. */
    predicate NeedsLookAhead(r: Record<Item>, page: Page<Item>)
      reads executor`answered
    {
      |page.records| >= pageSize && !r.body.Ack? && r.body.Id() != "" && r.body.Id() !in executor.answered
    }

    /** What the records of a page may be handled with: its answers are noted,
        and once it was read past, all the log showed then. */
    ghost predicate Prepared(page: Page<Item>, scanned: bool, shown: nat)
      reads this
    {
      Noted(page.next) && (scanned ==> Noted(shown + 1))
    }

    /** One record of a page, read past for its answer if need be. */
    method HandleNext(page: Page<Item>, k: nat, around: Surroundings, ghost n: nat, n': nat, scanned: bool)
      returns (m: nat, looked: bool, finish: Option<Finish>)
      requires Valid() && Honest(around) && n <= n' && k < |page.records|
      requires HonestPage(around, n, stream.cursor + 1, page) && page.gap.None? && page.next <= reached
      requires Ample() ==> Prepared(page, scanned, around.shown(n))
      modifies this, executor, stream`settled
      ensures Valid() && m >= n' && finish != Some(Drained) && page.next <= reached
      ensures Ample() ==> Prepared(page, looked, around.shown(n))
      ensures scanned || |page.records| < pageSize ==> m == n' && looked == scanned
      ensures m > n' && finish != Some(Failed) ==> looked
      ensures old(stream.settled) <= stream.settled && (finish.None? ==> page.records[k] in stream.settled)
      ensures finish == Some(Finish.Crashed) ==> executor.fuel == 0
      ensures finish.Some? && !finish.value.Crashed? ==> finish == Some(Stopped) || finish == Some(Failed)
      ensures finish == Some(Stopped) ==> !Calm(around)
      ensures finish == Some(Failed) ==> FetchFails(around)
    {
      PageRecords(page, stream.cursor + 1);
      PageMoves(page, stream.cursor + 1);
      var r := page.records[k];
      assert r in page.records;
      m, looked := n', scanned;
      if !scanned && NeedsLookAhead(r, page) {
        var ok;
        m, ok := ScanAhead(page.next, around, n');
        if !ok { return m, false, Some(Failed); }
        assert around.shown(n) <= around.shown(n');
        looked := true;
      }
      finish := HandleRecord(r, around.at(r.offset), around.shown(n));
    }

    /** Handle the records of a page in order, until one is not settled. */
    method HandlePage(page: Page<Item>, around: Surroundings, ghost n: nat, n': nat)
      returns (m: nat, finish: Option<Finish>)
      requires Valid() && Honest(around) && n <= n' && (Ample() ==> Noted(page.next))
      requires HonestPage(around, n, stream.cursor + 1, page) && page.gap.None? && page.next <= reached
      modifies this, executor, stream`settled
      ensures Valid() && m >= n' && old(stream.settled) <= stream.settled && page.next <= reached
      ensures |page.records| < pageSize ==> m == n'
      ensures finish != Some(Drained) && (Ample() ==> Noted(page.next))
      ensures finish.None? ==> forall r :: r in page.records ==> r in stream.settled
      ensures finish == Some(Finish.Crashed) ==> executor.fuel == 0
      ensures finish.Some? && !finish.value.Crashed? ==> finish == Some(Stopped) || finish == Some(Failed)
      ensures finish == Some(Stopped) ==> !Calm(around)
      ensures finish == Some(Failed) ==> FetchFails(around)
    {
      m := n';
      var scanned := false;
      for k := 0 to |page.records|
        invariant Valid() && m >= n' && old(stream.settled) <= stream.settled && page.next <= reached
        invariant |page.records| < pageSize ==> m == n'
        invariant Ample() ==> Prepared(page, scanned, around.shown(n))
        invariant forall i :: 0 <= i < k ==> page.records[i] in stream.settled
      {
        m, scanned, finish := HandleNext(page, k, around, n, m, scanned);
        if finish.Some? { return; }
      }
      finish := None;
    }

    /** A page read where this process now believes the cursor stands. */
    ghost predicate AtCursor(page: Page<Item>)
      reads this, stream
    {
      && IsPage(stream.log, stream.keep, stream.cursor + 1, page)
      && (page.start.Some? <==> stream.reportsStart)
      && (stream.reportsStart ==> stream.acknowledged <= stream.cursor)
    }

    /** A page without a gap is acknowledged up to where it ends. */
    lemma AckEnds(page: Page<Item>)
      requires Valid() && AtCursor(page) && page.gap.None? && page.AckOffset().Some?
      ensures page.AckOffset().value == page.next - 1
    {
      SelectExactly(stream.log, stream.keep, stream.cursor + 1, page.next);
      assert page.records != [] ==>
        Kept(stream.log, stream.keep, stream.cursor + 1, page.next, page.records[|page.records| - 1]);
    }

    /** Once the cursor is at the end of what was read, nothing that was
        remembered matters any more. */
    ghost method Slide()
      requires stream.Valid() && Good(executor.Done()) && Memory() && CursorBehindAnswers() && NoRunWasAnswered()
      requires window <= stream.cursor && scannedTo <= reached
      requires Ample() ==> Recalled() && Noted(Max(stream.cursor + 1, scannedTo))
      modifies this`window, this`recent
      ensures Valid()
    {
      if reached <= stream.cursor + 1 {
        window, recent := stream.cursor, [];
      }
    }

    method MoveOn(page: Page<Item>, head: nat, reply: CursorDrain.Reply) returns (finish: Option<Finish>)
      requires Valid() && AtCursor(page) && page.gap.None?
      requires page.AckOffset().Some? && page.AckOffset().value > stream.cursor
      requires stream.Passed(page.AckOffset().value) && (Ample() ==> Noted(page.next))
      requires page.AckOffset().value > stream.acknowledged
      requires page.next <= reached
      modifies stream`cursor, stream`acknowledged, this`window, this`recent
      ensures Valid() && stream.cursor >= old(stream.cursor)
      ensures finish == Some(Drained) ==> stream.Passed(head)
      ensures finish.None? ==>
        old(stream.cursor) < stream.cursor < head && (stream.reportsStart ==> stream.acknowledged <= stream.cursor)
      ensures reply.Taken? ==> finish.None? || finish == Some(Drained)
      ensures finish.None? || finish == Some(Drained) || finish == Some(Failed)
    {
      AckEnds(page);
      var ok := stream.Acknowledge(page.next - 1, reply);
      Slide();
      return if !ok then Some(Failed) else if page.next > head then Some(Drained) else None;
    }

    /** Nothing was left to read. */
    method Ended(page: Page<Item>, head: nat) returns (finish: Finish)
      requires Valid() && AtCursor(page) && page.AckOffset().None?
      modifies stream`acknowledged
      ensures Valid()
      ensures finish.Drained? ==> stream.Passed(head)
      ensures finish == if page.next > head then Drained else Failed
    {
      var end := stream.AtHead(page, head, stream.cursor);
      if !end.Drained? { return Failed; }
      PassedToHead(stream.acknowledged, head);
      return Drained;
    }

    /** Where nothing lies between the cursor and the head, the head is passed. */
    lemma PassedToHead(acknowledged: nat, head: nat)
      requires stream.Valid() && head <= acknowledged
      requires Select(stream.log, stream.keep, stream.cursor + 1, stream.cursor + 1)
        == Select(stream.log, stream.keep, stream.cursor + 1, acknowledged + 1)
      ensures stream.Passed(head)
    {
      SelectNothing(stream.log, stream.keep, stream.cursor + 1, stream.cursor + 1);
      SelectExactly(stream.log, stream.keep, stream.cursor + 1, acknowledged + 1);
    }

    /** One page of a drain: none when the drain goes on behind it. */
    method DrainPage(page: Page<Item>, n: nat, head: nat, around: Surroundings)
      returns (m: nat, finish: Option<Finish>)
      requires Valid() && Honest(around) && HonestPage(around, n, stream.cursor + 1, page) && AtCursor(page)
      modifies this, executor, stream
      ensures Valid() && stream.cursor >= old(stream.cursor) && m > n
      ensures finish == Some(Drained) ==> stream.Passed(head)
      ensures finish.None? ==>
        old(stream.cursor) < stream.cursor < head && (stream.reportsStart ==> stream.acknowledged <= stream.cursor)
      ensures finish == Some(Finish.Crashed) ==> executor.fuel == 0
      ensures Answers(head, around) && Calm(around) && page.gap.None? && Serves(page, head, around.ack(n)) ==>
        finish.None? || finish == Some(Drained) || finish == Some(Finish.Crashed)
      ensures old(stream.settled) <= stream.settled
    {
      if page.gap.Some? { return n + 1, Some(Gapped); }
      NotePage(page, stream.cursor + 1);
      m, finish := HandlePage(page, around, n, n + 1);
      if finish.None? { finish := EndPage(page, head, around.ack(n)); }
    }

    /** A page whose records are all settled. */
    method EndPage(page: Page<Item>, head: nat, reply: CursorDrain.Reply) returns (finish: Option<Finish>)
      requires Valid() && AtCursor(page) && page.gap.None? && page.next <= reached && (Ample() ==> Noted(page.next))
      requires forall r :: r in page.records ==> r in stream.settled
      modifies stream`cursor, stream`acknowledged, this`window, this`recent
      ensures Valid() && stream.cursor >= old(stream.cursor)
      ensures finish == Some(Drained) ==> stream.Passed(head)
      ensures finish.None? ==>
        old(stream.cursor) < stream.cursor < head && (stream.reportsStart ==> stream.acknowledged <= stream.cursor)
      ensures Serves(page, head, reply) ==> finish.None? || finish == Some(Drained)
      ensures finish.None? || finish == Some(Drained) || finish == Some(Failed)
    {
      SelectNothing(stream.log, stream.keep, stream.cursor + 1, stream.cursor + 1);
      stream.WholeSettles([], stream.cursor, page);
      if page.AckOffset().None? {
        var ended := Ended(page, head);
        return Some(ended);
      }
      finish := MoveOn(page, head, reply);
    }

    /** Drain to `head`: every command up to it is answered, or the drain
        says why not. It ends, however long the log is, and where the node
        answers and nothing stops the service it completes, unless the process
        has no step left. */
    method DrainTo(head: nat, around: Surroundings) returns (finish: Finish)
      requires Valid() && Honest(around)
      modifies this, executor, stream
      ensures Valid() && stream.cursor >= old(stream.cursor)
      ensures finish.Drained? ==> stream.Passed(head)
      ensures Answers(head, around) && Calm(around) ==> finish.Drained? || finish.Crashed?
      ensures finish.Crashed? ==> executor.fuel == 0
      ensures old(stream.settled) <= stream.settled
    {
      var n: nat := 0;
      var first := true;
      while true
        invariant Valid() && stream.cursor >= old(stream.cursor) && old(stream.settled) <= stream.settled
        invariant !first ==> stream.cursor < head && (stream.reportsStart ==> stream.acknowledged <= stream.cursor)
        decreases head - stream.cursor, if first then 1 else 0
      {
        var answer := around.fetch(n, stream.cursor + 1);
        if answer.None? { return Failed; }
        assert HonestPage(around, n, stream.cursor + 1, answer.value);
        if first {
          stream.Observe(answer.value);
          first := false;
        }
        var m, ended := DrainPage(answer.value, n, head, around);
        if ended.Some? { return ended.value; }
        n := m;
      }
    }

    /** What it means for a command to be passed: an answer to it stands in
        the log, or what the ledger holds for it was published. */
    lemma PassedIsAnswered(r: Record<Item>)
      requires Valid() && r in stream.log && stream.keep(r.body) && r.offset <= stream.cursor
      requires r.body.Cmd? && r.body.Id() != ""
      ensures (exists a :: IsAnswer(stream.log, stream.keep, a, r.body.Id()))
        || PublishedAsHeld(executor.Done(), r.body.Id())
    {
      var id := r.body.Id();
      assert Answered(id);
      if id in confirmed {
        assert SentFor(executor.sent, id);
        var i :| 0 <= i < |executor.sent| && executor.sent[i].0 == id;
        assert CommandLedger.Holds(executor.Done().ledger, id, executor.Done().sent[i].1);
      }
    }

    /** The process dies and a new one starts, to die after so many durable
        steps: the ledger, the cursor and what was sent are what is left. */
    method Restart(fuel: nat)
      requires Valid()
      modifies this`scannedTo, this`window, this`reached, this`recent, executor`answered, executor`fuel
      ensures Valid() && executor.answered == [] && window == stream.cursor
    {
      executor.answered, executor.fuel := [], fuel;
      scannedTo, window, reached, recent := 0, stream.cursor, 0, [];
    }

    /** What a drain of a run came to: it completed where the node answered and
        nothing stopped the service, unless the process had no step left; and
        then every command up to its head is settled. */
    ghost predicate Came(step: Step, finish: Option<Finish>)
      reads stream
    {
      match step
      case Awake(head, around) =>
        && finish.Some? && (finish == Some(Drained) ==> stream.Passed(head))
        && (Answers(head, around) && Calm(around) ==> finish == Some(Drained) || finish == Some(Finish.Crashed))
      case Crash(_) => finish.None?
    }

    /** Over every run of drains and crashes: a handler ran at most once per
        correlation id and per operation, each answer sent is the ledger's,
        the cursor passed only commands that are answered, and none ran whose
        answer already stood behind it. `finishes` is how each drain ended. */
    method Serve(script: seq<Step>) returns (finishes: seq<Option<Finish>>)
      requires Valid() && forall i :: 0 <= i < |script| && script[i].Awake? ==> Honest(script[i].around)
      modifies this, executor, stream
      ensures Good(executor.Done()) && CursorBehindAnswers() && NoRunWasAnswered()
      ensures stream.Passed(stream.cursor) && stream.cursor >= old(stream.cursor)
      ensures |finishes| == |script| && forall k :: 0 <= k < |script| ==> Came(script[k], finishes[k])
    {
      finishes := [];
      for k := 0 to |script|
        invariant Valid() && stream.cursor >= old(stream.cursor)
        invariant |finishes| == k && forall j :: 0 <= j < k ==> Came(script[j], finishes[j])
      {
        match script[k]
        case Awake(head, around) =>
          var finish := DrainTo(head, around);
          finishes := finishes + [Some(finish)];
        case Crash(fuel) =>
          Restart(fuel);
          finishes := finishes + [None];
      }
    }
  }

  ghost predicate PublishedAsHeld(u: World, id: string) {
    exists i :: 0 <= i < |u.sent| && u.sent[i].0 == id && CommandLedger.Holds(u.ledger, id, u.sent[i].1)
  }

  ghost predicate SentFor(sent: seq<(string, Entry)>, id: string) {
    exists i :: 0 <= i < |sent| && sent[i].0 == id
  }

  /** What a delivery, cut short anywhere, runs: at most its own command, and
      nothing when an answer to it is remembered. */
  lemma PlanRuns(u: World, answered: set<string>, c: Command, w: Weather, n: nat)
    requires n <= |Plan(u.ledger, answered, c, w)|
    ensures var v := DoAll(u, Plan(u.ledger, answered, c, w)[..n]);
      v.runs == u.runs || (v.runs == u.runs + [c] && c.correlation !in answered)
  {
    var plan := Plan(u.ledger, answered, c, w);
    RunsExactly(u.ledger, answered, c, w);
    forall k | 0 <= k < n && plan[k].Run? ensures k == |Starting(c)| { assert |plan[..k]| == k; }
    if i :| 0 <= i < n && plan[i].Run? {
      OneRun(u, plan[..n], i);
    } else {
      NoRuns(u, plan[..n]);
    }
  }

  lemma OneRun(u: World, es: seq<Effect>, i: nat)
    requires i < |es| && es[i].Run? && forall j :: 0 <= j < |es| && j != i ==> !es[j].Run?
    ensures DoAll(u, es).runs == u.runs + [es[i].command]
  {
    var before, after := es[..i], es[i + 1..];
    assert es == before + [es[i]] + after;
    NoRuns(u, before);
    One(DoAll(u, before), es[i]);
    DoAllJoins(u, before, [es[i]]);
    NoRuns(DoAll(u, before + [es[i]]), after);
    DoAllJoins(u, before + [es[i]], after);
  }

  lemma {:induction false} NoRuns(u: World, es: seq<Effect>)
    requires forall i :: 0 <= i < |es| ==> !es[i].Run?
    ensures DoAll(u, es).runs == u.runs
  {
    if es != [] {
      NoRuns(u, es[..|es| - 1]);
      assert !es[|es| - 1].Run?;
    }
  }

  lemma Delivered(u: World, answered: set<string>, c: Command, w: Weather, n: nat, ids: set<string>)
    requires Good(u) && n <= |Plan(u.ledger, answered, c, w)|
    requires forall id :: id in ids ==> SentFor(u.sent, id)
    ensures var v := DoAll(u, Plan(u.ledger, answered, c, w)[..n]);
      && Good(v) && (v.runs == u.runs || (v.runs == u.runs + [c] && c.correlation !in answered))
      && forall id :: id in ids ==> SentFor(v.sent, id)
  {
    PlanRuns(u, answered, c, w, n);
    DeliveryKeepsGood(u, answered, c, w, n);
    SentStays(u, Plan(u.ledger, answered, c, w)[..n]);
    SentForStays(u.sent, DoAll(u, Plan(u.ledger, answered, c, w)[..n]).sent, ids);
  }

  lemma SentForStays(sent: seq<(string, Entry)>, sent': seq<(string, Entry)>, ids: set<string>)
    requires |sent| <= |sent'| && forall i :: 0 <= i < |sent| ==> sent'[i] == sent[i]
    requires forall id :: id in ids ==> SentFor(sent, id)
    ensures forall id :: id in ids ==> SentFor(sent', id)
  {
    forall id | id in ids ensures SentFor(sent', id) {
      assert SentFor(sent, id);
      var i :| 0 <= i < |sent| && sent[i].0 == id;
      assert sent'[i].0 == id;
    }
  }

  lemma {:induction false} SentStays(u: World, es: seq<Effect>)
    ensures var v := DoAll(u, es); |u.sent| <= |v.sent| && forall i :: 0 <= i < |u.sent| ==> v.sent[i] == u.sent[i]
  {
    if es != [] { SentStays(u, es[..|es| - 1]); }
  }
}
