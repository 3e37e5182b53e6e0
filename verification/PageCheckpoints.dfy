/** Live ingest of checkpointed producers, one page at a time.

    A page's calls run in order on the producers' memories; each producer's
    checkpoint is written once, when the page ends, and committed with the
    page.  `Valid` is what every point between two pages keeps: each
    producer's memory, and its committed checkpoint, are the fold of its
    accepted calls up to some frontier, and nothing at or below the node's
    cursor lies beyond the frontier of the checkpoint.  It is lost only by a
    page that saves what a cancelled replay left. */
module PageCheckpoints {
  import opened Options
  import opened CallLog

  /** How one handler run ends, as far as the record does not decide it. */
  datatype Fate<S> = Returns | Raises(left: S) | Cancelled(left: S)

  /** How the handler run ends that breaks a rewind. */
  datatype ReplayEnd<S> = ReplayRaises | ReplayCancelled(left: S)

  /** What the surroundings do to one handler call: `left` is the state a
      handler that rejects leaves behind, `replays` how many handler runs of
      a rewind return before one ends in another way, `recorded` whether a
      rejection could be recorded. */
  datatype Weather<S> = Weather(fate: Fate<S>, left: S, replays: nat, replay: ReplayEnd<S>, recorded: bool)

  /** What became of a page's writes when it ended: there were none, or the
      node confirmed them all, or it refused or did not confirm one, or waiting
      for it was cancelled. */
  datatype Writes = NoWrites | Confirmed | Refused | CutShort

  /** What the surroundings do to one page: its calls, its writes, and whose
      checkpoint cannot be saved. */
  datatype PageWeather<!S> = PageWeather(calls: nat -> Weather<S>, writes: Writes, unsaved: set<Id>)

  /** What became of a call. `Failed` names the record to resume at, `Stopped`
      is a cancelled handler, `Torn` one that was cancelled when it ran again. */
  datatype Outcome = Skipped | Handled | Rejected | Failed(offset: nat) | Stopped | Torn

  /** What became of a rewind: the calls ran again, one failed and the producer
      is at the page's start, or one was cancelled and it is where that left it. */
  datatype Rewound = Back | Restarted | Broken

  /** One checkpointed producer within one page (`_PageEntry`). */
  datatype Entry<S> = Entry(start: Producer<S>, first: Option<nat>, base: Producer<S>, since: seq<Call>)

  /** One producer: its memory, its committed checkpoint, its page entry. */
  datatype Slot<S> = Slot(now: Producer<S>, saved: Producer<S>, entry: Option<Entry<S>>)

  /** What a page's calls have made of a producer: its memory, the memory and
      the calls a rewind starts from, and its first record of the page. */
  datatype Redo<S> = Redo(now: Producer<S>, base: Producer<S>, since: seq<Call>, first: Option<nat>)

  function RedoOf<S>(s: Slot<S>): Redo<S> {
    if s.entry.None? then Redo(s.now, s.now, [], None)
    else Redo(s.now, s.entry.value.base, s.entry.value.since, s.entry.value.first)
  }

  // ----------------------------------------- what a page's calls amount to

  /** What a cancelled replay found: the kept memory after the calls that had
      run again. */
  function Found<S>(w: World<S>, r: Redo<S>, replays: nat): Producer<S>
    requires replays <= |r.since|
  {
    w.Replayed(r.base, r.since[..replays])
  }

  /** What it leaves: what the handler had made of the state by then, and the
      handled offsets of the calls before it. */
  function TornMemory<S>(w: World<S>, r: Redo<S>, replays: nat, left: S): Producer<S>
    requires replays <= |r.since|
  {
    Producer(left, Found(w, r, replays).handled)
  }

  /** What becomes of a call. */
  function OutcomeOf<S>(w: World<S>, c: Call, weather: Weather<S>, r: Redo<S>): Outcome {
    if w.Seen(r.now, c) then Skipped
    else if weather.fate.Cancelled? then Stopped
    else if weather.fate.Returns? && !w.rejects(c) then Handled
    else if weather.replays < |r.since| then
      (if weather.replay.ReplayCancelled? then Torn else Failed(r.first.GetOr(c.offset)))
    else if weather.fate.Returns? && weather.recorded then Rejected
    else Failed(c.offset)
  }

  /** What becomes of a call, told by what its handler does, whether a
      rejection could be recorded, and how the rewind goes. */
  lemma OutcomeExactly<S>(w: World<S>, c: Call, weather: Weather<S>, r: Redo<S>)
    ensures var o := OutcomeOf(w, c, weather, r);
      var fails := weather.fate.Raises? || (weather.fate.Returns? && w.rejects(c));
      && (o.Skipped? <==> w.Seen(r.now, c))
      && (o.Stopped? <==> !w.Seen(r.now, c) && weather.fate.Cancelled?)
      && (o.Handled? <==> !w.Seen(r.now, c) && weather.fate.Returns? && !w.rejects(c))
      && (o.Rejected? <==> !w.Seen(r.now, c) && weather.fate.Returns? && w.rejects(c)
                           && |r.since| <= weather.replays && weather.recorded)
      && (o.Torn? <==> !w.Seen(r.now, c) && fails && weather.replays < |r.since| && weather.replay.ReplayCancelled?)
      && (o.Failed? ==> o.offset == if weather.replays < |r.since| then r.first.GetOr(c.offset) else c.offset)
  {
  }

  /** A page's calls end with this one. */
  predicate Ends(r: Outcome) { r.Failed? || r.Stopped? || r.Torn? }

  /** A producer behind a call of its that the page goes on from. */
  function Next<S>(w: World<S>, c: Call, r: Redo<S>): Redo<S> {
    if w.Seen(r.now, c) then r
    else if w.rejects(c) then Redo(r.now, r.now, [], Some(r.first.GetOr(c.offset)))
    else Redo(w.Ran(c, r.now), r.base, r.since + [c], Some(r.first.GetOr(c.offset)))
  }

  /** A producer behind the calls from `lo` up to `i`, if none ended the page. */
  function After<S>(w: World<S>, p: Id, r: Redo<S>, lo: nat, i: nat): Redo<S>
    requires lo <= i <= |w.calls|
    decreases i
  {
    if i == lo then r
    else
      var before := After(w, p, r, lo, i - 1);
      if w.calls[i - 1].producer == p then Next(w, w.calls[i - 1], before) else before
  }

  /** The producer of call `i` when the call comes, in a page begun with these
      slots. */
  function Met<S>(w: World<S>, was: map<Id, Slot<S>>, lo: nat, i: nat): Redo<S>
    requires lo <= i < |w.calls|
  {
    var p := w.calls[i].producer;
    After(w, p, if p in was then RedoOf(was[p]) else RedoOf(Fresh(w, p)), lo, i)
  }

  function Fresh<S>(w: World<S>, p: Id): Slot<S> {
    Slot(Producer(w.init(p), map[]), Producer(w.init(p), map[]), None)
  }

  function OutcomeAt<S>(w: World<S>, was: map<Id, Slot<S>>, lo: nat, i: nat, calls: nat -> Weather<S>): Outcome
    requires lo <= i < |w.calls|
  {
    OutcomeOf(w, w.calls[i], calls(i), Met(w, was, lo, i))
  }

  /** No call before `i` ends the page. */
  ghost predicate NoneEnds<S>(w: World<S>, was: map<Id, Slot<S>>, lo: nat, i: nat, calls: nat -> Weather<S>)
    requires lo <= i <= |w.calls|
  {
    forall j :: lo <= j < i ==> !Ends(OutcomeAt(w, was, lo, j, calls))
  }

  /** Call `i` is the one that ends the page. */
  ghost predicate EndsFirst<S>(w: World<S>, was: map<Id, Slot<S>>, lo: nat, i: nat, calls: nat -> Weather<S>)
    requires lo <= i < |w.calls|
  {
    NoneEnds(w, was, lo, i, calls) && Ends(OutcomeAt(w, was, lo, i, calls))
  }

  /** Call `i` ends the page with a rewind that is cancelled, and leaves another
      state than the cancelled replay found. */
  ghost predicate TearsAt<S>(w: World<S>, was: map<Id, Slot<S>>, lo: nat, i: nat, calls: nat -> Weather<S>)
    requires lo <= i < |w.calls|
  {
    && EndsFirst(w, was, lo, i, calls) && OutcomeAt(w, was, lo, i, calls).Torn?
    && calls(i).replay.left != Found(w, Met(w, was, lo, i), calls(i).replays).state
  }

  /** The calls of a page tear a producer's memory. */
  ghost predicate Tears<S>(w: World<S>, was: map<Id, Slot<S>>, lo: nat, hi: nat, calls: nat -> Weather<S>, p: Id)
    requires hi <= |w.calls|
  {
    exists i :: lo <= i < hi && w.calls[i].producer == p && TearsAt(w, was, lo, i, calls)
  }

  /** Which memory a cancelled replay tore: none where it left what it found. */
  function TornAt<S(==)>(p: Id, left: S, found: S): Option<Id> {
    if left == found then None else Some(p)
  }

  /** What a cancelled replay leaves of the producer of call `i`. */
  ghost predicate LeftTorn<S>(w: World<S>, slots: map<Id, Slot<S>>, i: nat, torn: Option<Id>, weather: Weather<S>,
                              r: Redo<S>)
    requires i < |w.calls|
  {
    var p := w.calls[i].producer;
    && weather.replay.ReplayCancelled? && weather.replays < |r.since| && p in slots
    && slots[p].now == TornMemory(w, r, weather.replays, weather.replay.left)
    && torn == TornAt(p, weather.replay.left, Found(w, r, weather.replays).state)
  }

  /** Every producer is as the page's calls up to `i` have made it. */
  ghost predicate AsCalled<S>(w: World<S>, was: map<Id, Slot<S>>, slots: map<Id, Slot<S>>, lo: nat, i: nat)
    requires lo <= i <= |w.calls|
  {
    && slots.Keys == was.Keys
    && forall p {:trigger CalledTo(w, was, slots, lo, i, p)} :: p in slots ==> CalledTo(w, was, slots, lo, i, p)
  }

  ghost predicate CalledTo<S>(w: World<S>, was: map<Id, Slot<S>>, slots: map<Id, Slot<S>>, lo: nat, i: nat, p: Id)
    requires lo <= i <= |w.calls| && p in slots && p in was
  {
    RedoOf(slots[p]) == After(w, p, RedoOf(was[p]), lo, i)
  }

  /** What a page's calls have made of its producers, before it ends. */
  ghost predicate CallsTold<S>(w: World<S>, was: map<Id, Slot<S>>, slots: map<Id, Slot<S>>, lo: nat, hi: nat,
                               calls: nat -> Weather<S>, torn: Option<Id>)
    requires lo <= hi <= |w.calls|
  {
    && TornAsTold(w, was, slots, lo, hi, calls, torn)
    && (NoneEnds(w, was, lo, hi, calls) ==> AsCalled(w, was, slots, lo, hi))
  }

  /** The torn memory is the one the page's calls tear, and is what the
      cancelled replay left of it. */
  ghost predicate TornAsTold<S>(w: World<S>, was: map<Id, Slot<S>>, slots: map<Id, Slot<S>>, lo: nat, hi: nat,
                                calls: nat -> Weather<S>, torn: Option<Id>)
    requires hi <= |w.calls|
  {
    && (forall p :: torn == Some(p) <==> Tears(w, was, lo, hi, calls, p))
    && (forall i :: lo <= i < hi && TearsAt(w, was, lo, i, calls) ==>
          LeftTorn(w, slots, i, torn, calls(i), Met(w, was, lo, i)))
  }

  /** The page's calls wrote something, and this became of it. */
  ghost predicate WritesAre<S>(w: World<S>, writes: Writes, weather: PageWeather<S>, after: nat, upto: nat) {
    weather.writes == writes && w.Passed(after) < w.Passed(upto)
  }

  /** A page, begun with these slots, saves a memory that a cancelled replay
      left other than it found: its calls tear one, none of its writes is
      refused, and the producer's checkpoint can be saved. */
  ghost predicate SavesTorn<S>(w: World<S>, slots: map<Id, Slot<S>>, after: nat, upto: nat, weather: PageWeather<S>,
                               p: Id)
  {
    && !WritesAre(w, Refused, weather, after, upto) && p !in weather.unsaved
    && Tears(w, slots, w.Passed(after), w.Passed(upto), weather.calls, p)
  }

  ghost predicate PageTears<S>(w: World<S>, slots: map<Id, Slot<S>>, after: nat, upto: nat, weather: PageWeather<S>) {
    exists p :: SavesTorn(w, slots, after, upto, weather, p)
  }

  /** What was saved of a torn memory is what the cancelled replay left. */
  ghost predicate SavedAsLeft<S>(w: World<S>, was: map<Id, Slot<S>>, slots: map<Id, Slot<S>>, lo: nat, hi: nat,
                                 weather: PageWeather<S>)
    requires hi <= |w.calls|
  {
    forall i :: lo <= i < hi && TearsAt(w, was, lo, i, weather.calls) && w.calls[i].producer !in weather.unsaved ==>
      SavedLeft(w, slots, i, weather.calls(i), Met(w, was, lo, i))
  }

  ghost predicate SavedLeft<S>(w: World<S>, slots: map<Id, Slot<S>>, i: nat, weather: Weather<S>, r: Redo<S>)
    requires i < |w.calls|
  {
    && w.calls[i].producer in slots && weather.replay.ReplayCancelled? && weather.replays < |r.since|
    && slots[w.calls[i].producer].saved == TornMemory(w, r, weather.replays, weather.replay.left)
  }

  /** The page's end saves a torn memory as the cancelled replay left it, and
      what a page without one made of its producers. */
  lemma ClosedAsTold<S>(w: World<S>, was: map<Id, Slot<S>>, mid: map<Id, Slot<S>>, midMarks: map<Id, Mark>,
                        slots: map<Id, Slot<S>>, marks: map<Id, Mark>, lo: nat, hi: nat, weather: PageWeather<S>,
                        torn: Option<Id>)
    requires lo <= hi <= |w.calls| && AllUp(w, mid, midMarks, torn, hi)
    requires AllClosed(mid, midMarks, slots, marks, weather.unsaved)
    requires CallsTold(w, was, mid, lo, hi, weather.calls, torn)
    requires torn.Some? && torn.value in mid ==>
      mid[torn.value].entry.Some? && mid[torn.value].entry.value.first.Some?
    ensures SavedAsTold(w, was, slots, lo, hi, weather)
  {
    forall i | lo <= i < hi && TearsAt(w, was, lo, i, weather.calls) && w.calls[i].producer !in weather.unsaved
      ensures SavedLeft(w, slots, i, weather.calls(i), Met(w, was, lo, i))
    {
      assert LeftTorn(w, mid, i, torn, weather.calls(i), Met(w, was, lo, i));
      assert Tears(w, was, lo, hi, weather.calls, w.calls[i].producer);
    }
    if NoneEnds(w, was, lo, hi, weather.calls) {
      forall p | p in was && p !in weather.unsaved
        ensures var now := After(w, p, RedoOf(was[p]), lo, hi).now; slots[p] == Slot(now, now, None)
      {
        assert CalledTo(w, was, mid, lo, hi, p) && Up(w, mid, midMarks, torn, p, hi);
      }
    }
  }

  /** Every producer is back at the page's start. */
  ghost predicate AllBack<S>(slots: map<Id, Slot<S>>) {
    forall p :: p in slots ==>
      slots[p].now == slots[p].saved && (slots[p].entry.Some? ==> slots[p].entry.value.first.None?)
  }

  lemma ClosedAsBefore<S>(w: World<S>, was: map<Id, Slot<S>>, mid: map<Id, Slot<S>>, midMarks: map<Id, Mark>,
                          slots: map<Id, Slot<S>>, marks: map<Id, Mark>, unsaved: set<Id>)
    requires AllBack(mid) && AllClosed(mid, midMarks, slots, marks, unsaved) && was.Keys == mid.Keys
    requires forall p :: p in mid ==> was[p] == Slot(mid[p].saved, mid[p].saved, None)
    ensures slots == was
  {
    forall p | p in was ensures slots[p] == was[p] {}
  }

  /** A page that tears a memory tears the one its calls tear. */
  lemma TearsTold<S>(w: World<S>, was: map<Id, Slot<S>>, mid: map<Id, Slot<S>>, after: nat, upto: nat,
                     weather: PageWeather<S>, torn: Option<Id>)
    requires if WritesAre(w, Refused, weather, after, upto) then torn.None?
             else w.Passed(after) <= w.Passed(upto) &&
                  CallsTold(w, was, mid, w.Passed(after), w.Passed(upto), weather.calls, torn)
    ensures forall p :: SavesTorn(w, was, after, upto, weather, p) <==> torn == Some(p) && p !in weather.unsaved
    ensures PageTears(w, was, after, upto, weather) <==> torn.Some? && torn.value !in weather.unsaved
  {
    forall p ensures SavesTorn(w, was, after, upto, weather, p) <==> torn == Some(p) && p !in weather.unsaved {}
    if torn.Some? && torn.value !in weather.unsaved { assert SavesTorn(w, was, after, upto, weather, torn.value); }
  }

  /** Where a page's calls end, and how: at the record to resume at, or with a
      cancelled handler, or behind the last of them. */
  ghost predicate EndAsTold<S>(w: World<S>, was: map<Id, Slot<S>>, lo: nat, hi: nat, calls: nat -> Weather<S>,
                               resume: Option<nat>, stopped: bool)
    requires lo <= hi <= |w.calls|
  {
    && (NoneEnds(w, was, lo, hi, calls) ==> resume.None? && !stopped)
    && forall i :: lo <= i < hi && EndsFirst(w, was, lo, i, calls) ==>
        EndsWith(OutcomeAt(w, was, lo, i, calls), resume, stopped)
  }

  predicate EndsWith(r: Outcome, resume: Option<nat>, stopped: bool) {
    resume == (if r.Failed? then Some(r.offset) else None) && stopped == !r.Failed?
  }

  /** The checkpoints hold what the page's calls have made of the producers. */
  ghost predicate CalledSaved<S>(w: World<S>, was: map<Id, Slot<S>>, slots: map<Id, Slot<S>>, lo: nat, hi: nat,
                                 unsaved: set<Id>)
    requires lo <= hi <= |w.calls|
  {
    forall p :: p in was && p !in unsaved ==>
      var now := After(w, p, RedoOf(was[p]), lo, hi).now;
      p in slots && slots[p] == Slot(now, now, None)
  }

  lemma {:induction false} FirstEnd<S>(w: World<S>, was: map<Id, Slot<S>>, lo: nat, i: nat, calls: nat -> Weather<S>)
    returns (j: nat)
    requires lo <= i < |w.calls| && Ends(OutcomeAt(w, was, lo, i, calls))
    ensures lo <= j <= i && EndsFirst(w, was, lo, j, calls)
    decreases i
  {
    j := i;
    if k :| lo <= k < i && Ends(OutcomeAt(w, was, lo, k, calls)) { j := FirstEnd(w, was, lo, k, calls); }
  }

  /** The first record of the page that a producer handled is no later one. */
  lemma {:induction false} FirstIsEarlier<S>(w: World<S>, p: Id, r: Redo<S>, lo: nat, i: nat, k: nat)
    requires w.Valid() && lo <= i <= k < |w.calls| && r.first.None?
    ensures After(w, p, r, lo, i).first.GetOr(w.calls[k].offset) <= w.calls[k].offset
    decreases i
  {
    if i > lo {
      FirstIsEarlier(w, p, r, lo, i - 1, k);
      FirstIsEarlier(w, p, r, lo, i - 1, i - 1);
      assert Before(w.calls[i - 1], w.calls[k]);
    }
  }

  /** A record whose rejection cannot be recorded holds the page: it stops, or
      resumes at that record or before it. */
  lemma UnrecordedHolds<S>(w: World<S>, was: map<Id, Slot<S>>, lo: nat, hi: nat, calls: nat -> Weather<S>,
                           resume: Option<nat>, stopped: bool, i: nat)
    requires w.Valid() && lo <= i < hi <= |w.calls| && EndAsTold(w, was, lo, hi, calls, resume, stopped)
    requires forall p :: p in was ==> was[p].entry.None?
    requires w.rejects(w.calls[i]) && calls(i).fate.Returns? && !calls(i).recorded
    requires !w.Seen(Met(w, was, lo, i).now, w.calls[i])
    ensures stopped || (resume.Some? && resume.value <= w.calls[i].offset)
  {
    var j := FirstEnd(w, was, lo, i, calls);
    var p := w.calls[j].producer;
    assert EndsWith(OutcomeAt(w, was, lo, j, calls), resume, stopped);
    FirstIsEarlier(w, p, if p in was then RedoOf(was[p]) else RedoOf(Fresh(w, p)), lo, j, j);
    if j < i { assert Before(w.calls[j], w.calls[i]); }
  }

  /** What a page, none of whose writes is refused, saves. */
  ghost predicate SavedAsTold<S>(w: World<S>, was: map<Id, Slot<S>>, slots: map<Id, Slot<S>>, lo: nat, hi: nat,
                                 weather: PageWeather<S>)
    requires lo <= hi <= |w.calls|
  {
    && SavedAsLeft(w, was, slots, lo, hi, weather)
    && (NoneEnds(w, was, lo, hi, weather.calls) ==> CalledSaved(w, was, slots, lo, hi, weather.unsaved))
  }

  /** At most one call ends a page. */
  lemma OneEnd<S>(w: World<S>, was: map<Id, Slot<S>>, lo: nat, i: nat, j: nat, calls: nat -> Weather<S>)
    requires lo <= i < |w.calls| && lo <= j < |w.calls|
    requires EndsFirst(w, was, lo, i, calls) && EndsFirst(w, was, lo, j, calls)
    ensures i == j
  {
  }

  /** What can happen next: a page, a page cut short by a crash after its first
      `calls` calls, one cut short while it saves, when another writer has
      committed the checkpoints of some producers, an acknowledgement, a crash
      between two pages. */
  datatype Event<!S> =
    | PageEvent(after: nat, upto: nat, weather: PageWeather<S>)
    | CrashInPage(after: nat, calls: nat, weather: PageWeather<S>)
    | CrashAtEnd(after: nat, upto: nat, weather: PageWeather<S>, committed: set<Id>)
    | AckEvent(offset: nat)
    | CrashEvent

  /** Where in the sequence of calls the memories of a slot stand: the one it
      has, the committed one, and those its entry keeps; `first` is the first
      call handled in the page, `noted` the rejected calls whose rejection was
      recorded. */
  datatype Mark = Mark(now: nat, saved: nat, base: nat, first: nat, noted: set<nat>)

  ghost predicate Rejects<S>(w: World<S>, p: Id, i: nat)
    requires i < |w.calls|
  {
    w.calls[i].producer == p && w.rejects(w.calls[i])
  }

  /** A memory goes past a rejected call only once its rejection was recorded. */
  ghost predicate AllNoted<S>(w: World<S>, p: Id, m: Mark) {
    forall i {:trigger Rejects(w, p, i)} :: 0 <= i < |w.calls| && Rejects(w, p, i) && (i < m.now || i < m.saved) ==>
      i in m.noted
  }

  /** The slot of `p` in a page handled up to call `k`: every memory in it is
      the fold of the producer's calls up to its mark, and its entry can run
      the calls since its base again. */
  ghost predicate Tracks<S>(w: World<S>, p: Id, s: Slot<S>, m: Mark, k: nat) {
    && Stands(w, p, s, m, k)
    && s.now == w.At(p, m.now)
    && (s.entry.Some? ==> s.entry.value.since == w.Accepted(p, m.base, m.now))
  }

  /** The same, but for the memory itself and the calls to run again. */
  ghost predicate Stands<S>(w: World<S>, p: Id, s: Slot<S>, m: Mark, k: nat) {
    && m.now <= |w.calls| && AllNoted(w, p, m)
    && m.saved <= |w.calls| && s.saved == w.At(p, m.saved)
    && (s.entry.None? ==> s.now == s.saved && m.now == m.saved)
    && (s.entry.Some? ==> Entered(w, p, s.entry.value, s, m, k))
  }

  ghost predicate Entered<S>(w: World<S>, p: Id, e: Entry<S>, s: Slot<S>, m: Mark, k: nat)
    requires m.now <= |w.calls| && m.saved <= |w.calls|
  {
    && e.start == s.saved
    && m.saved <= m.base <= m.now
    && e.base == w.At(p, m.base)
    && (e.first.None? ==> m.saved == m.now)
    && (e.first.Some? ==> FirstAt(w, p, e.first.value, m, k))
  }

  /** The first record handled in the page: nothing of `p` lies between the
      page's start and it. */
  ghost predicate FirstAt<S>(w: World<S>, p: Id, offset: nat, m: Mark, k: nat) {
    && m.first < k
    && m.first < |w.calls|
    && w.calls[m.first].offset == offset
    && w.Idle(p, m.saved, m.first)
  }

  /** How far a memory reaches once call `i`, rejected, is behind it. */
  ghost function Beyond(n: nat, i: nat): nat { if n <= i then i + 1 else n }

  lemma RunTracks<S>(w: World<S>, p: Id, s: Slot<S>, m: Mark, i: nat)
    requires w.Valid() && i < |w.calls| && Tracks(w, p, s, m, i + 1) && w.Idle(p, m.now, i) && m.now <= i
    requires w.Takes(p, i) && s.entry.Some? && s.entry.value.first.Some?
    ensures Tracks(w, p, s.(now := w.Ran(w.calls[i], s.now),
                            entry := Some(s.entry.value.(since := s.entry.value.since + [w.calls[i]]))),
                   m.(now := i + 1), i + 1)
  {
    w.IdleAt(p, m.now, i, m.base);
  }

  /** The mark of a producer once call `i`, rejected, is set aside: it goes past
      the call when the rejection was recorded. */
  ghost function AsideMark(m: Mark, i: nat, recorded: bool): Mark {
    if recorded then m.(now := Beyond(m.now, i), base := Beyond(m.now, i), noted := m.noted + {i})
    else m.(base := m.now)
  }

  lemma RejectTracks<S>(w: World<S>, p: Id, s: Slot<S>, m: Mark, i: nat, recorded: bool)
    requires w.Valid() && i < |w.calls| && Tracks(w, p, s, m, i + 1) && w.Idle(p, m.now, i)
    requires w.calls[i].producer == p && w.rejects(w.calls[i]) && s.entry.Some? && s.entry.value.first.Some?
    ensures Tracks(w, p, s.(entry := Some(s.entry.value.(base := s.now, since := []))), AsideMark(m, i, recorded),
                   i + 1)
  {
    if m.now <= i {
      w.IdleAt(p, m.now, i, m.base);
      assert !w.Takes(p, i);
    }
  }

  /** Back at the page's start, a producer still holds every record below the
      first one it handled in the page. */
  lemma StartHolds<S>(w: World<S>, p: Id, s: Slot<S>, m: Mark, k: nat)
    requires w.Valid() && Stands(w, p, s, m, k) && s.entry.Some? && s.entry.value.first.Some?
    ensures s.entry.value.first.value > 0
    ensures w.Passed(s.entry.value.first.value - 1) <= m.first < k
    ensures w.Idle(p, m.saved, w.Passed(s.entry.value.first.value - 1))
  {
    assert Numbered(w.calls[m.first]);
    w.PassedBelow(s.entry.value.first.value - 1, m.first);
  }

  function AtStart<S>(s: Slot<S>): (r: Slot<S>)
    requires s.entry.Some?
    ensures r.now == s.entry.value.start && r.saved == s.saved && r.entry.Some?
  {
    var e := s.entry.value;
    s.(now := e.start, entry := Some(e.(base := e.start, since := [])))
  }

  ghost predicate Ok<S>(w: World<S>, slots: map<Id, Slot<S>>, marks: map<Id, Mark>, p: Id, k: nat)
    requires p in slots && p in marks
  {
    Tracks(w, p, slots[p], marks[p], k)
  }

  /** The slot stands, and its memory is the fold unless it is the torn one. */
  ghost predicate Up<S>(w: World<S>, slots: map<Id, Slot<S>>, marks: map<Id, Mark>, torn: Option<Id>, p: Id, k: nat)
    requires p in slots && p in marks
  {
    Stands(w, p, slots[p], marks[p], k) && (torn != Some(p) ==> slots[p].now == w.At(p, marks[p].now))
  }

  /** Every slot stands, and every memory but the torn one is a fold. */
  ghost predicate AllUp<S>(w: World<S>, slots: map<Id, Slot<S>>, marks: map<Id, Mark>, torn: Option<Id>, k: nat) {
    && slots.Keys == marks.Keys
    && forall p {:trigger Up(w, slots, marks, torn, p, k)} :: p in slots ==> Up(w, slots, marks, torn, p, k)
  }

  /** A page's end does not save the torn memory. */
  predicate Healed<S>(slots: map<Id, Slot<S>>, torn: Option<Id>, unsaved: set<Id>) {
    torn.Some? && torn.value in slots ==> Lost(slots[torn.value], torn.value in unsaved)
  }

  lemma OkIsUp<S>(w: World<S>, slots: map<Id, Slot<S>>, marks: map<Id, Mark>, k: nat, k': nat)
    requires AllOk(w, slots, marks, k) && k <= k'
    ensures AllUp(w, slots, marks, None, k')
  {
    forall p | p in slots ensures Up(w, slots, marks, None, p, k') { assert Ok(w, slots, marks, p, k); }
  }

  /** Changing one key twice is changing it once. */
  lemma ChangedTwice<V>(a: map<Id, V>, b: map<Id, V>, c: map<Id, V>, p: Id)
    requires p in b && p in c && b == a[p := b[p]] && c == b[p := c[p]]
    ensures c == a[p := c[p]]
  {
  }

  /** Changing one producer keeps the others. */
  lemma OthersOk<S>(w: World<S>, was: map<Id, Slot<S>>, wasMarks: map<Id, Mark>, k: nat, slots: map<Id, Slot<S>>,
                    marks: map<Id, Mark>, p: Id, k': nat)
    requires slots.Keys == marks.Keys == was.Keys == wasMarks.Keys && p in slots && k <= k'
    requires slots == was[p := slots[p]] && marks == wasMarks[p := marks[p]]
    requires forall q {:trigger Ok(w, was, wasMarks, q, k)} :: q in was ==> Ok(w, was, wasMarks, q, k)
    requires Ok(w, slots, marks, p, k')
    ensures forall q {:trigger Ok(w, slots, marks, q, k')} :: q in slots ==> Ok(w, slots, marks, q, k')
  {
    forall q | q in slots
      ensures Ok(w, slots, marks, q, k')
    {
      if q != p { assert Ok(w, was, wasMarks, q, k); }
    }
  }

  /** Every call of `p` below `k` is behind its memory. */
  ghost predicate Clear<S>(w: World<S>, marks: map<Id, Mark>, p: Id, k: nat)
    requires p in marks && k <= |w.calls|
  {
    w.Idle(p, marks[p].now, k)
  }

  /** Every call of `p` below `k` is in its committed checkpoint. */
  ghost predicate Kept<S>(w: World<S>, marks: map<Id, Mark>, p: Id, k: nat)
    requires p in marks && k <= |w.calls|
  {
    w.Idle(p, marks[p].saved, k)
  }

  /** Changing one producer leaves the others where they are; call `i` is not theirs. */
  lemma OthersClear<S>(w: World<S>, was: map<Id, Mark>, i: nat, marks: map<Id, Mark>, p: Id, k: nat)
    requires marks.Keys == was.Keys && p in marks && marks == was[p := marks[p]]
    requires k <= i < |w.calls| || (k == i + 1 <= |w.calls| && w.calls[i].producer == p)
    requires forall q {:trigger Clear(w, was, q, i)} :: q in was ==> Clear(w, was, q, i)
    requires Clear(w, marks, p, k)
    ensures forall q {:trigger Clear(w, marks, q, k)} :: q in marks ==> Clear(w, marks, q, k)
  {
    forall q | q in marks
      ensures Clear(w, marks, q, k)
    {
      if q != p { assert Clear(w, was, q, i); }
    }
  }

  /** A slot whose page was abandoned: back at the start, nothing handled. */
  function Abandoned<S>(s: Slot<S>): (r: Slot<S>)
    ensures s.entry.Some? ==> r.now == s.entry.value.start
  {
    if s.entry.None? then s
    else var start := s.entry.value.start; s.(now := start, entry := Some(Entry(start, None, start, [])))
  }

  /** Whether a slot has a checkpoint to save and cannot save it. */
  predicate Lost<S>(s: Slot<S>, unsaved: bool) {
    unsaved && s.entry.Some? && s.entry.value.first.Some?
  }

  ghost predicate LostAt<S>(s: Slot<S>, unsaved: bool, first: nat) {
    Lost(s, unsaved) && s.entry.value.first.value == first
  }

  function Below(n: nat): nat { if n == 0 then 0 else n - 1 }

  /** The last record a page handled: all of it, or up to before `resume`. */
  function Reached(resume: Option<nat>, upto: nat): nat {
    if resume.None? then upto else Below(resume.value)
  }

  /** A slot at the end of its page. */
  function Closed<S>(s: Slot<S>, unsaved: bool): (r: Slot<S>)
    ensures r.entry.None?
    ensures s.entry.Some? && s.entry.value.first.Some? ==> r.now == r.saved || unsaved
  {
    if s.entry.None? then s
    else if s.entry.value.first.None? then s.(entry := None)
    else if unsaved then Slot(s.entry.value.start, s.saved, None)
    else Slot(s.now, s.now, None)
  }

  ghost function ClosedMark<S>(s: Slot<S>, m: Mark, unsaved: bool): Mark {
    if Lost(s, unsaved) then m.(now := m.saved) else m.(saved := m.now)
  }

  /** The earlier of two records to resume at. */
  function Earlier(a: Option<nat>, b: Option<nat>): (r: Option<nat>)
    ensures r.None? <==> a.None? && b.None?
    ensures r.Some? ==> (r == a || r == b) && (a.Some? ==> r.value <= a.value) && (b.Some? ==> r.value <= b.value)
  {
    if a.None? || (b.Some? && b.value < a.value) then b else a
  }

  ghost predicate AllOk<S>(w: World<S>, slots: map<Id, Slot<S>>, marks: map<Id, Mark>, k: nat) {
    && slots.Keys == marks.Keys
    && forall p {:trigger Ok(w, slots, marks, p, k)} :: p in slots ==> Ok(w, slots, marks, p, k)
  }

  /** All calls below index `k` are behind every producer. */
  ghost predicate AllClear<S>(w: World<S>, marks: map<Id, Mark>, k: nat) {
    k <= |w.calls| && forall p {:trigger Clear(w, marks, p, k)} :: p in marks ==> Clear(w, marks, p, k)
  }

  /** All calls below record `offset`, which are among the first `k`, are behind
      every producer. */
  ghost predicate ClearTo<S>(w: World<S>, marks: map<Id, Mark>, offset: nat, k: nat) {
    0 < offset && w.Passed(offset - 1) <= k && AllClear(w, marks, w.Passed(offset - 1))
  }

  /** The rejection of call `i` is noted for the producer. */
  ghost predicate Notes(marks: map<Id, Mark>, p: Id, i: nat) { p in marks && i in marks[p].noted }

  /** Nothing was noted but call `i`, if its rejection was recorded. */
  ghost predicate NotedOnly(was: map<Id, Mark>, marks: map<Id, Mark>, i: nat, recorded: bool) {
    && was.Keys == marks.Keys
    && forall p, j: nat {:trigger Notes(marks, p, j)} :: Notes(marks, p, j) ==> Notes(was, p, j) || (j == i && recorded)
  }

  /** What was noted are rejections that were recorded, of calls from `lo` to `hi`. */
  ghost predicate NotedBy<S>(was: map<Id, Mark>, marks: map<Id, Mark>, lo: nat, hi: nat, calls: nat -> Weather<S>) {
    && was.Keys == marks.Keys
    && forall p, j: nat {:trigger Notes(marks, p, j)} :: Notes(marks, p, j) ==>
        Notes(was, p, j) || (lo <= j < hi && calls(j).recorded)
  }

  lemma NotedMore<S>(was: map<Id, Mark>, mid: map<Id, Mark>, marks: map<Id, Mark>, lo: nat, i: nat, hi: nat,
                     calls: nat -> Weather<S>)
    requires lo <= i < hi && NotedBy(was, mid, lo, i, calls) && NotedOnly(mid, marks, i, calls(i).recorded)
    ensures NotedBy(was, marks, lo, i + 1, calls) && NotedBy(was, marks, lo, hi, calls)
  {
    forall p, j: nat | Notes(marks, p, j) ensures Notes(was, p, j) || (lo <= j < i + 1 && calls(j).recorded) {
      if Notes(mid, p, j) {} else { assert j == i; }
    }
  }

  lemma ClosedNotes<S>(was: map<Id, Slot<S>>, wasMarks: map<Id, Mark>, slots: map<Id, Slot<S>>, marks: map<Id, Mark>,
                       unsaved: set<Id>)
    requires AllClosed(was, wasMarks, slots, marks, unsaved)
    ensures NotedSame(wasMarks, marks)
  {
  }

  /** What keeps the notes keeps where they are from. */
  lemma NotedThen<S>(was: map<Id, Mark>, mid: map<Id, Mark>, marks: map<Id, Mark>, lo: nat, hi: nat,
                     calls: nat -> Weather<S>)
    requires NotedBy(was, mid, lo, hi, calls) && NotedSame(mid, marks)
    ensures NotedBy(was, marks, lo, hi, calls)
  {
    forall p, j: nat | Notes(marks, p, j) ensures Notes(mid, p, j) {}
  }

  /** No mark of a rejection is added. */
  ghost predicate NotedSame(was: map<Id, Mark>, marks: map<Id, Mark>) {
    was.Keys == marks.Keys && forall p :: p in marks ==> marks[p].noted == was[p].noted
  }

  /** All calls below index `k` are in every producer's committed checkpoint. */
  ghost predicate AllKept<S>(w: World<S>, marks: map<Id, Mark>, k: nat) {
    k <= |w.calls| && forall p {:trigger Kept(w, marks, p, k)} :: p in marks ==> Kept(w, marks, p, k)
  }

  /** `slots` and `marks` are what a page's end makes of `was` and `wasMarks`. */
  ghost predicate AllClosed<S>(was: map<Id, Slot<S>>, wasMarks: map<Id, Mark>, slots: map<Id, Slot<S>>,
                               marks: map<Id, Mark>, unsaved: set<Id>) {
    && was.Keys == wasMarks.Keys == slots.Keys == marks.Keys
    && forall p :: p in was ==>
        slots[p] == Closed(was[p], p in unsaved) && marks[p] == ClosedMark(was[p], wasMarks[p], p in unsaved)
  }

  lemma ClosedOk<S>(w: World<S>, was: map<Id, Slot<S>>, wasMarks: map<Id, Mark>, slots: map<Id, Slot<S>>,
                    marks: map<Id, Mark>, unsaved: set<Id>, torn: Option<Id>, hi: nat)
    requires AllUp(w, was, wasMarks, torn, hi) && AllClosed(was, wasMarks, slots, marks, unsaved)
    requires Healed(was, torn, unsaved)
    ensures AllOk(w, slots, marks, 0)
  {
    forall p | p in slots
      ensures Ok(w, slots, marks, p, 0)
    {
      assert Up(w, was, wasMarks, torn, p, hi);
    }
  }

  /** A page's end takes nothing out of a checkpoint. */
  lemma ClosedKept<S>(w: World<S>, was: map<Id, Slot<S>>, wasMarks: map<Id, Mark>, slots: map<Id, Slot<S>>,
                      marks: map<Id, Mark>, unsaved: set<Id>, torn: Option<Id>, hi: nat, k: nat)
    requires AllUp(w, was, wasMarks, torn, hi) && AllClosed(was, wasMarks, slots, marks, unsaved)
    requires AllKept(w, wasMarks, k)
    ensures AllKept(w, marks, k)
  {
    forall p | p in marks
      ensures Kept(w, marks, p, k)
    {
      assert Up(w, was, wasMarks, torn, p, hi) && Kept(w, wasMarks, p, k);
    }
  }

  /** A page's end puts what is behind every producer into the checkpoints,
      up to below the first record of one that could not be saved. */
  lemma ClosedCommits<S>(w: World<S>, was: map<Id, Slot<S>>, wasMarks: map<Id, Mark>, slots: map<Id, Slot<S>>,
                         marks: map<Id, Mark>, unsaved: set<Id>, hi: nat, failed: Option<nat>, k: nat)
    requires w.Valid() && AllUp(w, was, wasMarks, None, hi) && AllClosed(was, wasMarks, slots, marks, unsaved)
    requires AllClear(w, wasMarks, k) && k <= hi
    requires forall p :: p in was && Lost(was[p], p in unsaved) ==>
      failed.Some? && failed.value <= was[p].entry.value.first.value
    requires failed.Some? ==> failed.value > 0 && k <= w.Passed(failed.value - 1)
    ensures AllKept(w, marks, k)
  {
    forall p | p in marks
      ensures Kept(w, marks, p, k)
    {
      assert Up(w, was, wasMarks, None, p, hi) && Clear(w, wasMarks, p, k);
      if Lost(was[p], p in unsaved) {
        StartHolds(w, p, was[p], wasMarks[p], hi);
        w.UptoMonotone(failed.value - 1, was[p].entry.value.first.value - 1, |w.calls|);
      }
    }
  }

  /** After a page, the checkpoints hold every record up to where it reached. */
  lemma ReachedCommits<S>(w: World<S>, was: map<Id, Slot<S>>, wasMarks: map<Id, Mark>, slots: map<Id, Slot<S>>,
                          marks: map<Id, Mark>, unsaved: set<Id>, upto: nat, at: Option<nat>, failed: Option<nat>)
    requires w.Valid() && AllUp(w, was, wasMarks, None, w.Passed(upto))
    requires AllClosed(was, wasMarks, slots, marks, unsaved)
    requires at.None? ==> AllClear(w, wasMarks, w.Passed(upto))
    requires at.Some? ==> ClearTo(w, wasMarks, at.value, w.Passed(upto))
    requires forall p :: p in was && Lost(was[p], p in unsaved) ==>
      failed.Some? && failed.value <= was[p].entry.value.first.value
    requires failed.Some? ==> exists p :: p in was && LostAt(was[p], p in unsaved, failed.value)
    ensures AllKept(w, marks, w.Passed(Reached(Earlier(at, failed), upto)))
  {
    var resume := Earlier(at, failed);
    var k := w.Passed(Reached(resume, upto));
    var hi := w.Passed(upto);
    if failed.Some? {
      var p :| p in was && LostAt(was[p], p in unsaved, failed.value);
      assert Up(w, was, wasMarks, None, p, hi);
      StartHolds(w, p, was[p], wasMarks[p], hi);
      w.UptoMonotone(resume.value - 1, failed.value - 1, |w.calls|);
    }
    if at.Some? { w.UptoMonotone(resume.value - 1, at.value - 1, |w.calls|); }
    ClearBelow(w, wasMarks, if at.Some? then w.Passed(at.value - 1) else hi, k);
    ClosedCommits(w, was, wasMarks, slots, marks, unsaved, hi, failed, k);
  }

  lemma AbandonedOk<S>(w: World<S>, was: map<Id, Slot<S>>, wasMarks: map<Id, Mark>, torn: Option<Id>,
                       slots: map<Id, Slot<S>>, marks: map<Id, Mark>, hi: nat, lo: nat)
    requires AllUp(w, was, wasMarks, torn, hi) && AllKept(w, wasMarks, lo)
    requires torn.Some? && torn.value in was ==> was[torn.value].entry.Some?
    requires slots.Keys == marks.Keys == was.Keys
    requires forall p :: p in was ==>
      slots[p] == Abandoned(was[p]) && marks[p] == wasMarks[p].(now := wasMarks[p].saved, base := wasMarks[p].saved)
    ensures AllUp(w, slots, marks, None, hi) && AllKept(w, marks, lo) && AllClear(w, marks, lo)
    ensures forall p :: p in slots ==> slots[p].now == slots[p].saved == was[p].saved
  {
    forall p | p in slots
      ensures Up(w, slots, marks, None, p, hi) && Kept(w, marks, p, lo) && Clear(w, marks, p, lo)
      ensures slots[p].now == slots[p].saved == was[p].saved
    {
      assert Up(w, was, wasMarks, torn, p, hi) && Kept(w, wasMarks, p, lo);
    }
  }

  lemma RestartedOk<S>(w: World<S>, was: map<Id, Slot<S>>, wasMarks: map<Id, Mark>, torn: Option<Id>,
                       slots: map<Id, Slot<S>>, marks: map<Id, Mark>, k: nat, settled: nat, cursor: nat)
    requires AllUp(w, was, wasMarks, torn, k) && AllKept(w, wasMarks, settled) && cursor <= settled
    requires slots.Keys == marks.Keys == was.Keys
    requires forall p :: p in was ==>
      slots[p] == Slot(was[p].saved, was[p].saved, None) && marks[p] == wasMarks[p].(now := wasMarks[p].saved)
    ensures AllOk(w, slots, marks, 0) && AllKept(w, marks, cursor)
  {
    forall p | p in slots
      ensures Ok(w, slots, marks, p, 0) && Kept(w, marks, p, cursor)
    {
      assert Up(w, was, wasMarks, torn, p, k) && Kept(w, wasMarks, p, settled);
    }
  }

  lemma ClearBelow<S>(w: World<S>, marks: map<Id, Mark>, k: nat, lower: nat)
    requires AllClear(w, marks, k) && lower <= k
    ensures AllClear(w, marks, lower)
  {
    forall p | p in marks ensures Clear(w, marks, p, lower) { assert Clear(w, marks, p, k); }
  }

  /** A producer whose replay was cancelled stands, and its memory is a fold
      when the cancelled handler left what it found. */
  lemma TornStands<S>(w: World<S>, was: map<Id, Slot<S>>, wasMarks: map<Id, Mark>, slots: map<Id, Slot<S>>,
                      marks: map<Id, Mark>, p: Id, left: S, k: nat)
    requires AllOk(w, was, wasMarks, k) && p in was && was[p].entry.Some? && was[p].entry.value.first.Some?
    requires p in slots && p in marks && marks[p] == wasMarks[p].(now := marks[p].now)
    requires wasMarks[p].base <= marks[p].now <= wasMarks[p].now <= |w.calls|
    requires slots == was[p := was[p].(now := Producer(left, w.At(p, marks[p].now).handled))]
    requires marks == wasMarks[p := marks[p]]
    ensures AllUp(w, slots, marks, if left == w.At(p, marks[p].now).state then None else Some(p), k)
  {
    var torn := if left == w.At(p, marks[p].now).state then None else Some(p);
    forall q | q in slots ensures Up(w, slots, marks, torn, q, k) { assert Ok(w, was, wasMarks, q, k); }
  }

  /** A producer that is not saved is as it was when the page began. */
  lemma UnsavedStays<S>(w: World<S>, was: map<Id, Slot<S>>, mid: map<Id, Slot<S>>, midMarks: map<Id, Mark>,
                        slots: map<Id, Slot<S>>, marks: map<Id, Mark>, torn: Option<Id>, unsaved: set<Id>, k: nat)
    requires AllUp(w, mid, midMarks, torn, k) && AllClosed(mid, midMarks, slots, marks, unsaved) && was.Keys == mid.Keys
    requires forall p :: p in mid ==> was[p] == Slot(mid[p].saved, mid[p].saved, None)
    requires torn.Some? && torn.value in mid ==>
      mid[torn.value].entry.Some? && mid[torn.value].entry.value.first.Some?
    ensures forall p :: p in unsaved && p in slots ==> slots[p] == was[p]
  {
    forall p | p in unsaved && p in slots ensures slots[p] == was[p] {
      assert Up(w, mid, midMarks, torn, p, k);
    }
  }

  /** The accepted call `i` is in its producer's committed checkpoint. */
  ghost predicate InSaved<S>(w: World<S>, slots: map<Id, Slot<S>>, i: nat)
    requires i < |w.calls|
  {
    var p := w.calls[i].producer;
    p in slots && w.Takes(p, i) && w.Seen(slots[p].saved, w.calls[i])
  }

  /** The calls that came into the checkpoints. */
  ghost function Newly<S>(w: World<S>, was: map<Id, Slot<S>>, slots: map<Id, Slot<S>>): set<nat> {
    set i: nat | i < |w.calls| && InSaved(w, slots, i) && !InSaved(w, was, i)
  }

  /** Each call in a checkpoint is in exactly one of two sets, and no other call is. */
  ghost predicate Counted<S>(w: World<S>, slots: map<Id, Slot<S>>, sure: set<nat>, unsure: set<nat>) {
    && sure !! unsure
    && (forall i :: i in sure || i in unsure ==> i < |w.calls| && InSaved(w, slots, i))
    && (forall i {:trigger InSaved(w, slots, i)} :: 0 <= i < |w.calls| && InSaved(w, slots, i) ==>
          i in sure || i in unsure)
  }

  lemma StillCounted<S>(w: World<S>, was: map<Id, Slot<S>>, slots: map<Id, Slot<S>>, sure: set<nat>, unsure: set<nat>)
    requires Counted(w, was, sure, unsure) && was.Keys == slots.Keys
    requires forall p :: p in slots ==> slots[p].saved == was[p].saved
    ensures Counted(w, slots, sure, unsure)
  {
    forall i | 0 <= i < |w.calls| ensures InSaved(w, slots, i) == InSaved(w, was, i) {}
  }

  lemma SameNewly<S>(w: World<S>, was: map<Id, Slot<S>>, mid: map<Id, Slot<S>>, slots: map<Id, Slot<S>>)
    requires was.Keys == mid.Keys && forall p :: p in mid ==> mid[p].saved == was[p].saved
    ensures Newly(w, mid, slots) == Newly(w, was, slots)
  {
    forall i | 0 <= i < |w.calls| ensures InSaved(w, mid, i) == InSaved(w, was, i) {}
  }

  /** The end of a page takes no call out of a checkpoint. */
  lemma ClosedCounts<S>(w: World<S>, was: map<Id, Slot<S>>, wasMarks: map<Id, Mark>, slots: map<Id, Slot<S>>,
                        marks: map<Id, Mark>, unsaved: set<Id>, torn: Option<Id>, hi: nat,
                        sure: set<nat>, unsure: set<nat>)
    requires w.Valid() && AllUp(w, was, wasMarks, torn, hi) && AllClosed(was, wasMarks, slots, marks, unsaved)
    requires AllOk(w, slots, marks, 0) && Counted(w, was, sure, unsure)
    ensures Counted(w, slots, sure + Newly(w, was, slots), unsure)
    ensures Counted(w, slots, sure, unsure + Newly(w, was, slots))
  {
    forall i | 0 <= i < |w.calls| && InSaved(w, was, i) ensures InSaved(w, slots, i) {
      var p := w.calls[i].producer;
      assert Up(w, was, wasMarks, torn, p, hi) && Ok(w, slots, marks, p, 0);
      w.SeenExactly(p, wasMarks[p].saved, i);
      w.SeenExactly(p, marks[p].saved, i);
    }
  }

  /** Where a lane stands between two events. */
  datatype Place<S> = Place(slots: map<Id, Slot<S>>, cursor: nat, settled: nat)

  /** The last record handled is up to where the page's calls end. */
  ghost predicate SettledAt<S>(w: World<S>, was: map<Id, Slot<S>>, before: nat, settled: nat, after: nat, upto: nat,
                               calls: nat -> Weather<S>)
    requires w.Passed(after) <= w.Passed(upto)
  {
    exists resume: Option<nat>, stopped: bool ::
      && EndAsTold(w, was, w.Passed(after), w.Passed(upto), calls, resume, stopped)
      && settled == if stopped then before else Max(before, Reached(resume, upto))
  }

  /** What a page makes of a lane, when it saves no torn memory: nothing of it is
      kept when a write is refused; otherwise the checkpoints hold what its calls
      make of the producers. */
  ghost predicate PageDid<S>(w: World<S>, a: Place<S>, b: Place<S>, after: nat, upto: nat, weather: PageWeather<S>)
  {
    && w.Passed(after) <= w.Passed(upto) && b.cursor == a.cursor && a.slots.Keys == b.slots.Keys
    && (forall p :: p in weather.unsaved && p in a.slots ==> b.slots[p] == a.slots[p])
    && (if WritesAre(w, Refused, weather, after, upto) then b.slots == a.slots
        else SavedAsTold(w, a.slots, b.slots, w.Passed(after), w.Passed(upto), weather))
  }

  class Lane<S(==)> {
    const w: World<S>
    const ids: set<Id>

    var slots: map<Id, Slot<S>>
    /** The node's cursor: the last record acknowledged. */
    var cursor: nat

    /** The last record the pages handled so far reach: what may be acknowledged. */
    var settled: nat
    ghost var marks: map<Id, Mark>
    /** The pages that saved what a cancelled replay left. */
    ghost var tearing: seq<Event<S>>
    /** The calls in committed checkpoints: those saved by pages whose writes,
        if any, were confirmed, and by pages whose confirmation was cancelled. */
    ghost var sure: set<nat>
    ghost var unsure: set<nat>

    ghost predicate Known(i: nat)
      requires i < |w.calls|
    {
      w.calls[i].producer in ids
    }

    ghost predicate Memory(k: nat)
      reads this
    {
      && w.Valid()
      && slots.Keys == ids
      && (forall i :: 0 <= i < |w.calls| ==> Known(i))
      && AllOk(w, slots, marks, k)
    }

    /** In a page handled up to call `k`, every memory but the torn one is a fold. */
    ghost predicate Standing(torn: Option<Id>, k: nat)
      reads this
    {
      && w.Valid()
      && slots.Keys == ids
      && (forall i :: 0 <= i < |w.calls| ==> Known(i))
      && AllUp(w, slots, marks, torn, k)
      && (torn.Some? ==> IsTorn(torn.value))
    }

    /** A cancelled replay left a memory that no run of the calls leads to. */
    ghost predicate IsTorn(p: Id)
      reads this
    {
      && p in slots && w.NoFold(p, slots[p].now)
      && slots[p].entry.Some? && slots[p].entry.value.first.Some?
    }

    lemma MemoryStands(k: nat, k': nat)
      requires Memory(k) && k <= k'
      ensures Standing(None, k')
    {
      OkIsUp(w, slots, marks, k, k');
    }

    ghost predicate Valid()
      reads this
    {
      && Memory(0)
      && (forall p :: p in ids ==> slots[p].entry.None?)
      && AllKept(w, marks, w.Passed(settled))
      && cursor <= settled
    }

    /** Every record at or below the node's cursor is in the committed
        checkpoint of its producer, which is the fold of the producer's
        accepted calls up to some point; so is its memory. */
    ghost predicate Durable()
      reads this
    {
      forall p :: p in ids ==>
        p in slots && w.Holds(p, slots[p].saved, cursor) && w.Holds(p, slots[p].now, cursor)
    }

    /** The calls in committed checkpoints are those of `sure` and `unsure`. */
    ghost predicate Accounted()
      reads this`slots, this`sure, this`unsure
    {
      Counted(w, slots, sure, unsure)
    }

    /** The accepted call `i` is for a record at or below the node's cursor. */
    ghost predicate PassedBy(i: nat)
      requires i < |w.calls|
      reads this`cursor
    {
      w.calls[i].offset <= cursor && !w.rejects(w.calls[i])
    }

    /** The rejected call `i` is for a record at or below the node's cursor. */
    ghost predicate SetAsideBy(i: nat)
      requires i < |w.calls|
      reads this`cursor
    {
      w.calls[i].offset <= cursor && w.rejects(w.calls[i])
    }

    /** Of every rejected call that the node's cursor passes the rejection was
        recorded. */
    lemma PassedIsNoted(i: nat)
      requires Valid() && i < |w.calls| && SetAsideBy(i)
      ensures Notes(marks, w.calls[i].producer, i)
    {
      var p := w.calls[i].producer;
      assert Known(i) && Rejects(w, p, i);
      assert Ok(w, slots, marks, p, 0) && Kept(w, marks, p, w.Passed(settled));
      w.UptoMonotone(cursor, settled, |w.calls|);
      w.UptoSplits(cursor, |w.calls|);
    }

    /** Every accepted call that the node's cursor passes is in a checkpoint, so
        its writes were confirmed or waiting for that was cancelled. */
    lemma PassedIsCounted(i: nat)
      requires Valid() && Accounted() && i < |w.calls| && PassedBy(i)
      ensures i in sure <==> i !in unsure
    {
      var p := w.calls[i].producer;
      assert Known(i);
      ValidIsDurable();
      var n: nat :| n <= |w.calls| && slots[p].saved == w.At(p, n) && w.Covers(p, n, cursor);
      w.SeenExactly(p, n, i);
      assert InSaved(w, slots, i);
    }

    lemma ValidIsDurable()
      requires Valid()
      ensures Durable()
    {
      forall p | p in ids
        ensures p in slots && w.Holds(p, slots[p].saved, cursor) && w.Holds(p, slots[p].now, cursor)
      {
        assert Ok(w, slots, marks, p, 0);
        assert Kept(w, marks, p, w.Passed(settled));
        w.IdleCovers(p, marks[p].saved, settled, cursor);
      }
    }

    constructor (w: World<S>, ids: set<Id>)
      requires w.Valid() && forall i :: 0 <= i < |w.calls| ==> w.calls[i].producer in ids
      ensures Valid() && this.w == w && this.ids == ids && cursor == settled == 0 && tearing == []
      ensures Accounted() && sure == unsure == {}
      ensures forall p :: p in ids ==>
        p in slots && slots[p] == Slot(Producer(w.init(p), map[]), Producer(w.init(p), map[]), None)
    {
      this.w, this.ids := w, ids;
      slots := map p | p in ids :: Slot(Producer(w.init(p), map[]), Producer(w.init(p), map[]), None);
      cursor, settled := 0, 0;
      marks, tearing := map p | p in ids :: Mark(0, 0, 0, 0, {}), [];
      sure, unsure := {}, {};
      new;
      assert w.Passed(0) == 0 by { w.NothingPassed(); }
    }

    // ---------------------------------------------------------- one call

    /** Put a producer, whatever state it was left in, back to where its calls
        of the page had brought it: the kept memory and the handler calls made
        since. When one of them fails it goes to the page's start; when one is
        cancelled it stays as that left it. */
    method Rewind(p: Id, replays: nat, end: ReplayEnd<S>, ghost k: nat) returns (r: Rewound)
      requires p in slots && p in marks && w.Valid()
      requires exists was :: Tracks(w, p, slots[p].(now := was), marks[p], k)
      requires slots[p].entry.Some?
      modifies this`slots, this`marks
      ensures r == if |old(slots[p].entry.value.since)| <= replays then Back
                   else if end.ReplayRaises? then Restarted else Broken
      ensures r.Back? ==> marks == old(marks) && slots == old(slots)[p := old(slots[p]).(now := w.At(p, marks[p].now))]
      ensures r.Restarted? ==> slots == old(slots)[p := AtStart(old(slots[p]))]
      ensures r.Restarted? ==>
        marks == old(marks)[p := old(marks[p]).(now := old(marks[p].saved), base := old(marks[p].saved))]
      ensures r.Broken? ==> marks == old(marks)
      ensures r.Broken? ==>
        slots == old(slots)[p := old(slots[p]).(now := TornMemory(w, RedoOf(old(slots[p])), replays, end.left))]
    {
      var e := slots[p].entry.value;
      ghost var n := marks[p].now;
      slots := slots[p := slots[p].(now := e.base)];
      var j := 0;
      while j < |e.since|
        invariant 0 <= j <= |e.since| && j <= replays
        invariant p in slots && slots == old(slots)[p := old(slots[p]).(now := w.Replayed(e.base, e.since[..j]))]
        invariant marks == old(marks)
      {
        if j == replays {
          if end.ReplayCancelled? {
            slots := slots[p := slots[p].(now := slots[p].now.(state := end.left))];
            return Broken;
          }
          ToStart(p);
          return Restarted;
        }
        assert e.since[..j + 1][..j] == e.since[..j];
        slots := slots[p := slots[p].(now := w.Ran(e.since[j], slots[p].now))];
        j := j + 1;
      }
      assert e.since[..j] == e.since;
      w.ReplayReaches(p, marks[p].base, n);
      return Back;
    }

    /** Put a producer back to the page's start. */
    method ToStart(p: Id)
      requires p in slots && p in marks && slots[p].entry.Some?
      modifies this`slots, this`marks
      ensures slots == old(slots)[p := AtStart(old(slots[p]))]
      ensures marks == old(marks)[p := old(marks[p]).(now := old(marks[p].saved), base := old(marks[p].saved))]
    {
      var e := slots[p].entry.value;
      slots := slots[p := slots[p].(now := e.start, entry := Some(e.(base := e.start, since := [])))];
      marks := marks[p := marks[p].(now := marks[p].saved, base := marks[p].saved)];
    }

    /** Enter `p` into the page, at call `i`: its memory now is what a failed
        page goes back to. */
    method Enter(p: Id, ghost i: nat)
      requires Memory(i) && p in ids
      modifies this`slots, this`marks
      ensures Memory(i) && slots[p].entry.Some?
      ensures slots == old(slots)[p := slots[p]] && marks == old(marks)[p := marks[p]]
      ensures slots[p].now == old(slots[p].now) && marks[p].now == old(marks[p].now)
      ensures marks[p].saved == old(marks[p].saved) && marks[p].noted == old(marks[p].noted)
      ensures slots[p].saved == old(slots[p].saved) && slots[p].entry.value.start == slots[p].saved
      ensures old(slots[p].entry.Some?) ==> slots[p] == old(slots[p])
      ensures old(slots[p].entry.None?) ==>
        slots[p].entry.value == Entry(slots[p].saved, None, slots[p].now, [])
    {
      var s := slots[p];
      assert Ok(w, slots, marks, p, i);
      if s.entry.None? {
        slots := slots[p := s.(entry := Some(Entry(s.now, None, s.now, [])))];
        marks := marks[p := marks[p].(base := marks[p].now)];
      }
      OthersOk(w, old(slots), old(marks), i, slots, marks, p, i);
    }

    /** Note the first record `p` handles in the page. */
    method First(p: Id, i: nat)
      requires i < |w.calls| && Memory(i) && AllClear(w, marks, i) && p in ids && slots[p].entry.Some?
      requires !w.Seen(slots[p].now, w.calls[i]) && w.calls[i].producer == p
      modifies this`slots, this`marks
      ensures Memory(i + 1) && AllClear(w, marks, i) && slots[p].entry.Some? && slots[p].entry.value.first.Some?
      ensures slots == old(slots)[p := slots[p]] && marks == old(marks)[p := marks[p]]
      ensures slots[p].now == old(slots[p].now) && slots[p].saved == old(slots[p].saved)
      ensures slots[p].entry.value == old(slots[p].entry.value).(first := slots[p].entry.value.first)
      ensures marks[p] == old(marks[p]).(first := marks[p].first)
      ensures slots[p].entry.value.first == if old(slots[p].entry.value.first.None?) then Some(w.calls[i].offset)
                                            else old(slots[p].entry.value.first)
    {
      assert Ok(w, slots, marks, p, i) && Clear(w, marks, p, i);
      w.SeenExactly(p, marks[p].now, i);
      if slots[p].entry.value.first.None? {
        slots := slots[p := slots[p].(entry := Some(slots[p].entry.value.(first := Some(w.calls[i].offset))))];
        marks := marks[p := marks[p].(first := i)];
      }
      OthersOk(w, old(slots), old(marks), i, slots, marks, p, i + 1);
      OthersClear(w, old(marks), i, marks, p, i);
    }

    /** A handler that raised left `left` behind: put the producer back. */
    method Undo(p: Id, left: S, replays: nat, end: ReplayEnd<S>, ghost i: nat) returns (r: Rewound)
      requires i < |w.calls| && Memory(i + 1) && AllClear(w, marks, i) && p in ids
      requires slots[p].entry.Some? && slots[p].entry.value.first.Some?
      modifies this`slots, this`marks
      ensures r == if |old(slots[p].entry.value.since)| <= replays then Back
                   else if end.ReplayRaises? then Restarted else Broken
      ensures !r.Broken? ==> Memory(i + 1)
      ensures r.Back? ==> slots == old(slots) && marks == old(marks)
      ensures r.Restarted? ==> slots == old(slots)[p := AtStart(old(slots[p]))]
      ensures r.Restarted? ==>
        marks == old(marks)[p := old(marks[p]).(now := old(marks[p].saved), base := old(marks[p].saved))]
      ensures r.Restarted? ==> var first := old(slots[p].entry.value.first.value);
        ClearTo(w, marks, first, i)
      ensures r.Broken? ==>
        slots == old(slots)[p := old(slots[p]).(now := TornMemory(w, RedoOf(old(slots[p])), replays, end.left))]
      ensures r.Broken? ==> p in marks && marks == old(marks)[p := marks[p]] && marks[p].saved == old(marks[p].saved)
      ensures r.Broken? ==> marks[p].noted == old(marks[p].noted)
      ensures r.Broken? ==> Standing(TornAt(p, end.left, Found(w, RedoOf(old(slots[p])), replays).state), i + 1)
    {
      ghost var was := slots[p].now;
      assert Ok(w, slots, marks, p, i + 1);
      StartHolds(w, p, slots[p], marks[p], i + 1);
      ghost var k := w.Passed(slots[p].entry.value.first.value - 1);
      slots := slots[p := slots[p].(now := slots[p].now.(state := left))];
      assert slots[p].(now := was) == old(slots[p]);
      assert Tracks(w, p, slots[p].(now := was), marks[p], i + 1);
      r := Rewind(p, replays, end, i + 1);
      if r.Back? {
        assert slots == old(slots);
      } else if r.Restarted? {
        StartedOver(p, old(slots), old(marks), i, k);
      } else {
        Tear(p, old(slots), replays, end.left, i + 1);
      }
    }

    lemma StartedOver(p: Id, was: map<Id, Slot<S>>, wasMarks: map<Id, Mark>, i: nat, k: nat)
      requires w.Valid() && k <= i < |w.calls| && was.Keys == ids && (forall j :: 0 <= j < |w.calls| ==> Known(j))
      requires AllOk(w, was, wasMarks, i + 1) && AllClear(w, wasMarks, i)
      requires p in was && was[p].entry.Some? && was[p].entry.value.first.Some? && w.Idle(p, wasMarks[p].saved, k)
      requires slots == was[p := AtStart(was[p])]
      requires marks == wasMarks[p := wasMarks[p].(now := wasMarks[p].saved, base := wasMarks[p].saved)]
      ensures Memory(i + 1) && AllClear(w, marks, k)
    {
      assert Ok(w, was, wasMarks, p, i + 1);
      assert slots[p] == AtStart(was[p]);
      OthersClear(w, wasMarks, i, marks, p, k);
      OthersOk(w, was, wasMarks, i + 1, slots, marks, p, i + 1);
    }

    /** The mark of a producer whose replay was cancelled. */
    ghost method Tear(p: Id, was: map<Id, Slot<S>>, replays: nat, left: S, k: nat)
      requires w.Valid() && was.Keys == ids && (forall i :: 0 <= i < |w.calls| ==> Known(i)) && AllOk(w, was, marks, k)
      requires p in ids && was[p].entry.Some? && was[p].entry.value.first.Some? && replays < |was[p].entry.value.since|
      requires slots == was[p := was[p].(now := TornMemory(w, RedoOf(was[p]), replays, left))]
      modifies this`marks
      ensures p in marks && marks == old(marks)[p := marks[p]] && marks[p].saved == old(marks[p].saved)
      ensures marks[p].noted == old(marks[p].noted)
      ensures Standing(TornAt(p, left, Found(w, RedoOf(was[p]), replays).state), k)
    {
      assert Ok(w, was, marks, p, k);
      ghost var n := w.PartReaches(p, marks[p].base, marks[p].now, replays);
      marks := marks[p := marks[p].(now := n)];
      TornStands(w, was, old(marks), slots, marks, p, left, k);
      w.TornExactly(p, n, left);
    }

    /** A rejected record is set aside: a later failure rewinds to after it. */
    method SetAside(p: Id, ghost i: nat, recorded: bool)
      requires i < |w.calls| && Memory(i + 1) && AllClear(w, marks, i)
      requires p == w.calls[i].producer && w.rejects(w.calls[i])
      requires p in slots && slots[p].entry.Some? && slots[p].entry.value.first.Some?
      modifies this`slots, this`marks
      ensures Memory(i + 1) && AllClear(w, marks, if recorded then i + 1 else i)
      ensures slots == old(slots)[p := old(slots[p]).(entry :=
                  Some(old(slots[p].entry.value).(base := old(slots[p].now), since := [])))]
      ensures p in marks && marks == old(marks)[p := AsideMark(old(marks[p]), i, recorded)]
    {
      assert Ok(w, slots, marks, p, i + 1) && Clear(w, marks, p, i);
      RejectTracks(w, p, slots[p], marks[p], i, recorded);
      slots := slots[p := slots[p].(entry := Some(slots[p].entry.value.(base := slots[p].now, since := [])))];
      marks := marks[p := AsideMark(marks[p], i, recorded)];
      OthersClear(w, old(marks), i, marks, p, if recorded then i + 1 else i);
      OthersOk(w, old(slots), old(marks), i + 1, slots, marks, p, i + 1);
    }

    /** A handler that returned: its effect stays, and can be run again. */
    method Apply(p: Id, i: nat)
      requires i < |w.calls| && Memory(i + 1) && AllClear(w, marks, i)
      requires p == w.calls[i].producer && !w.rejects(w.calls[i])
      requires p in slots && slots[p].entry.Some? && slots[p].entry.value.first.Some? && marks[p].now <= i
      modifies this`slots, this`marks
      ensures Memory(i + 1) && AllClear(w, marks, i + 1)
      ensures slots == old(slots)[p := slots[p]] && slots[p].now == w.Ran(w.calls[i], old(slots[p].now))
      ensures slots[p].saved == old(slots[p].saved) && slots[p].entry.Some?
      ensures slots[p].entry.value
        == old(slots[p].entry.value).(since := old(slots[p].entry.value.since) + [w.calls[i]])
      ensures marks == old(marks)[p := marks[p]] && marks[p].saved == old(marks[p].saved)
      ensures marks[p].noted == old(marks[p].noted)
    {
      assert Ok(w, slots, marks, p, i + 1) && Clear(w, marks, p, i);
      RunTracks(w, p, slots[p], marks[p], i);
      var s := slots[p];
      slots := slots[p := s.(now := w.Ran(w.calls[i], s.now),
                             entry := Some(s.entry.value.(since := s.entry.value.since + [w.calls[i]])))];
      marks := marks[p := marks[p].(now := i + 1)];
      OthersClear(w, old(marks), i, marks, p, i + 1);
      OthersOk(w, old(slots), old(marks), i + 1, slots, marks, p, i + 1);
    }

    /** A call comes to its producer: whether it has handled the record before. */
    method Meet(i: nat) returns (seen: bool)
      requires i < |w.calls| && Memory(i) && AllClear(w, marks, i)
      modifies this`slots, this`marks
      ensures Memory(i) && AllClear(w, marks, i) && Touched(i, old(slots), old(marks))
      ensures RedoOf(slots[w.calls[i].producer]) == RedoOf(old(slots[w.calls[i].producer]))
      ensures seen <==> w.Seen(slots[w.calls[i].producer].now, w.calls[i])
      ensures !seen ==> marks[w.calls[i].producer].now <= i || w.rejects(w.calls[i])
      ensures marks[w.calls[i].producer].noted == old(marks[w.calls[i].producer].noted)
    {
      var c := w.calls[i];
      var p := c.producer;
      assert Known(i);
      Enter(p, i);
      assert Ok(w, slots, marks, p, i) && Clear(w, old(marks), p, i);
      w.SeenExactly(p, marks[p].now, i);
      OthersClear(w, old(marks), i, marks, p, i);
      seen := c.key in slots[p].now.handled && c.offset <= slots[p].now.handled[c.key];
    }

    /** A record that was handled before is passed over. */
    lemma PassedOver(i: nat)
      requires i < |w.calls| && Memory(i) && AllClear(w, marks, i) && w.calls[i].producer in ids
      requires w.Seen(slots[w.calls[i].producer].now, w.calls[i])
      ensures Memory(i + 1) && AllClear(w, marks, i + 1)
    {
      var p := w.calls[i].producer;
      assert Ok(w, slots, marks, p, i) && Clear(w, marks, p, i);
      w.SeenExactly(p, marks[p].now, i);
      OthersOk(w, slots, marks, i, slots, marks, p, i + 1);
      OthersClear(w, marks, i, marks, p, i + 1);
    }

    /** One `@on_metric` call. A handler that does not return leaves the
        producer exactly as it was before the record, or, when the rewind
        fails or the handler is cancelled, as it was at the page's start, or,
        when the rewind itself is cancelled, as that left it. */
    method Handle(i: nat, weather: Weather<S>) returns (r: Outcome, torn: Option<Id>)
      requires i < |w.calls| && Memory(i) && AllClear(w, marks, i)
      modifies this`slots, this`marks
      ensures !r.Torn? ==> Memory(i + 1) && torn.None?
      ensures r.Torn? ==> Standing(torn, i + 1)
      ensures Touched(i, old(slots), old(marks))
      ensures Told(r, torn, w.calls[i], weather, old(slots[w.calls[i].producer]), slots[w.calls[i].producer])
      ensures NotedHere(i, old(marks), r)
      ensures r.Skipped? || r.Handled? || r.Rejected? ==> AllClear(w, marks, i + 1)
      ensures r.Failed? ==> ClearTo(w, marks, r.offset, i)
    {
      assert Known(i);
      var seen := Meet(i);
      if seen {
        PassedOver(i);
        return Skipped, None;
      }
      ghost var met, noted := slots, marks;
      Begin(i);
      ghost var begun, marked := slots, marks;
      ChangedTwice(old(slots), met, begun, w.calls[i].producer);
      ChangedTwice(old(marks), noted, marked, w.calls[i].producer);
      r, torn := Invoke(i, weather);
      ChangedTwice(old(slots), begun, slots, w.calls[i].producer);
      ChangedTwice(old(marks), marked, marks, w.calls[i].producer);
    }

    /** Only a rejection that was recorded is noted. */
    ghost predicate NotedHere(i: nat, was: map<Id, Mark>, r: Outcome)
      requires i < |w.calls|
      reads this`marks
    {
      var p := w.calls[i].producer;
      p in marks && p in was && marks[p].noted == was[p].noted + (if r.Rejected? then {i} else {})
    }

    static function Begun(c: Call, r: Redo<S>): Redo<S> { r.(first := Some(r.first.GetOr(c.offset))) }

    /** Its first record of the page is noted. */
    method Begin(i: nat)
      requires i < |w.calls| && Memory(i) && AllClear(w, marks, i) && w.calls[i].producer in ids
      requires slots[w.calls[i].producer].entry.Some? && !w.Seen(slots[w.calls[i].producer].now, w.calls[i])
      modifies this`slots, this`marks
      ensures Memory(i + 1) && AllClear(w, marks, i) && Touched(i, old(slots), old(marks))
      ensures var p := w.calls[i].producer;
        && slots[p].entry.Some? && slots[p].entry.value.first.Some?
        && RedoOf(slots[p]) == Begun(w.calls[i], RedoOf(old(slots[p]))) && marks[p].now == old(marks[p].now)
        && marks[p].noted == old(marks[p].noted)
    {
      First(w.calls[i].producer, i);
    }

    /** The handler itself, on a producer that has not handled the record. */
    method Invoke(i: nat, weather: Weather<S>) returns (r: Outcome, torn: Option<Id>)
      requires i < |w.calls| && Memory(i + 1) && AllClear(w, marks, i)
      requires w.calls[i].producer in ids
      requires ToInvoke(slots[w.calls[i].producer], w.calls[i])
      requires marks[w.calls[i].producer].now <= i || w.rejects(w.calls[i])
      modifies this`slots, this`marks
      ensures !r.Torn? ==> Memory(i + 1) && torn.None?
      ensures r.Torn? ==> Standing(torn, i + 1)
      ensures Touched(i, old(slots), old(marks))
      ensures Told(r, torn, w.calls[i], weather, old(slots[w.calls[i].producer]), slots[w.calls[i].producer])
      ensures NotedHere(i, old(marks), r)
      ensures r.Skipped? || r.Handled? || r.Rejected? ==> AllClear(w, marks, i + 1)
      ensures r.Failed? ==> ClearTo(w, marks, r.offset, i)
    {
      var c := w.calls[i];
      var p := c.producer;
      torn := None;
      assert Ok(w, slots, marks, p, i + 1);
      if weather.fate.Cancelled? {
        slots := slots[p := slots[p].(now := slots[p].now.(state := weather.fate.left))];
        ToStart(p);
        OthersOk(w, old(slots), old(marks), i + 1, slots, marks, p, i + 1);
        return Stopped, torn;
      }
      if weather.fate.Returns? && !w.rejects(c) {
        Apply(p, i);
        return Handled, torn;
      }
      r, torn := Fail(i, weather);
    }

    ghost predicate ToInvoke(s: Slot<S>, c: Call) {
      s.entry.Some? && s.entry.value.first.Some? && !w.Seen(s.now, c)
    }

    /** A handler that raised or rejected: the producer is put back, and a
        rejected record is set aside. */
    method Fail(i: nat, weather: Weather<S>) returns (r: Outcome, torn: Option<Id>)
      requires i < |w.calls| && Memory(i + 1) && AllClear(w, marks, i)
      requires w.calls[i].producer in ids
      requires ToInvoke(slots[w.calls[i].producer], w.calls[i])
      requires weather.fate.Raises? || (weather.fate.Returns? && w.rejects(w.calls[i]))
      modifies this`slots, this`marks
      ensures !r.Torn? ==> Memory(i + 1) && torn.None?
      ensures r.Torn? ==> Standing(torn, i + 1)
      ensures Touched(i, old(slots), old(marks))
      ensures Told(r, torn, w.calls[i], weather, old(slots[w.calls[i].producer]), slots[w.calls[i].producer])
      ensures NotedHere(i, old(marks), r)
      ensures !r.Torn? ==> r.Rejected? || r.Failed?
      ensures r.Rejected? ==> AllClear(w, marks, i + 1)
      ensures r.Failed? ==> ClearTo(w, marks, r.offset, i)
    {
      var c := w.calls[i];
      var p := c.producer;
      torn := None;
      assert Ok(w, slots, marks, p, i + 1);
      var left := if weather.fate.Raises? then weather.fate.left else weather.left;
      assert Numbered(c);
      w.PassedBelow(c.offset - 1, i);
      var rewound := Undo(p, left, weather.replays, weather.replay, i);
      if rewound.Broken? {
        torn := TornAt(p, weather.replay.left, Found(w, RedoOf(slots[p]), weather.replays).state);
        return Torn, torn;
      }
      if rewound.Restarted? {
        return Failed(slots[p].entry.value.first.value), torn;
      }
      forall q | q in ids ensures Clear(w, marks, q, w.Passed(c.offset - 1)) { assert Clear(w, marks, q, i); }
      if weather.fate.Raises? {
        return Failed(c.offset), torn;
      }
      SetAside(p, i, weather.recorded);
      forall q | q in ids ensures Clear(w, marks, q, w.Passed(c.offset - 1)) {
        assert Clear(w, marks, q, if weather.recorded then i + 1 else i);
      }
      return if weather.recorded then Rejected else Failed(c.offset), torn;
    }

    // ---------------------------------------------------------- one page

    /** No checkpoint is touched. */
    ghost predicate SavedSame(was: map<Id, Slot<S>>, marked: map<Id, Mark>)
      reads this
    {
      slots.Keys == marks.Keys == was.Keys == marked.Keys
      && forall p :: p in slots ==> slots[p].saved == was[p].saved && marks[p].saved == marked[p].saved
    }

    /** Producers without a call from `lo` to `k` are as they were. */
    ghost predicate IdleSame(was: map<Id, Slot<S>>, marked: map<Id, Mark>, lo: nat, k: nat)
      requires k <= |w.calls|
      reads this
    {
      slots.Keys == marks.Keys == was.Keys == marked.Keys
      && forall p {:trigger Same(was, marked, p)} :: p in slots && w.Idle(p, lo, k) ==> Same(was, marked, p)
    }

    ghost predicate Same(was: map<Id, Slot<S>>, marked: map<Id, Mark>, p: Id)
      requires p in slots && p in marks && p in was && p in marked
      reads this
    {
      slots[p] == was[p] && marks[p] == marked[p]
    }

    /** Every producer but that of call `i` holds all its calls before it. */
    ghost predicate ClearBut(i: nat)
      requires i < |w.calls|
      reads this
    {
      forall p :: p in marks && p != w.calls[i].producer ==> Clear(w, marks, p, i)
    }

    lemma IdleLess(was: map<Id, Slot<S>>, marked: map<Id, Mark>, lo: nat, k: nat, hi: nat)
      requires k <= hi <= |w.calls| && IdleSame(was, marked, lo, k)
      ensures IdleSame(was, marked, lo, hi)
    {
      forall p | p in slots && w.Idle(p, lo, hi) ensures Same(was, marked, p) { assert w.Idle(p, lo, k); }
    }

    /** A call that the page goes on from takes its producer on, and no other. */
    lemma CalledNext(was: map<Id, Slot<S>>, mid: map<Id, Slot<S>>, marked: map<Id, Mark>, lo: nat, i: nat)
      requires lo <= i < |w.calls| && mid.Keys == was.Keys && Touched(i, mid, marked)
      requires forall p :: p in mid ==> RedoOf(mid[p]) == After(w, p, RedoOf(was[p]), lo, i)
      requires RedoOf(slots[w.calls[i].producer]) == Next(w, w.calls[i], RedoOf(mid[w.calls[i].producer]))
      ensures AsCalled(w, was, slots, lo, i + 1)
    {
      forall p | p in slots ensures CalledTo(w, was, slots, lo, i + 1, p) {}
    }

    lemma CalledTells(was: map<Id, Slot<S>>, lo: nat, i: nat)
      requires lo <= i < |w.calls| && AsCalled(w, was, slots, lo, i) && w.calls[i].producer in slots
      ensures forall p :: p in slots ==> RedoOf(slots[p]) == After(w, p, RedoOf(was[p]), lo, i)
      ensures RedoOf(slots[w.calls[i].producer]) == Met(w, was, lo, i)
    {
      forall p | p in slots ensures RedoOf(slots[p]) == After(w, p, RedoOf(was[p]), lo, i) {
        assert CalledTo(w, was, slots, lo, i, p);
      }
    }

    /** The next call of a page from `lo` to `hi`. */
    method HandleNext(i: nat, lo: nat, hi: nat, weather: Weather<S>, ghost was: map<Id, Slot<S>>,
                      ghost wasMarks: map<Id, Mark>)
      returns (r: Outcome, torn: Option<Id>)
      requires lo <= i < hi <= |w.calls| && Memory(i) && AllClear(w, marks, i) && AllKept(w, marks, lo)
      requires SavedSame(was, wasMarks) && IdleSame(was, wasMarks, lo, i) && AsCalled(w, was, slots, lo, i)
      modifies this`slots, this`marks
      ensures AllKept(w, marks, lo) && SavedSame(was, wasMarks)
      ensures NotedOnly(old(marks), marks, i, weather.recorded)
      ensures r == OutcomeOf(w, w.calls[i], weather, Met(w, was, lo, i))
      ensures !Ends(r) ==> Memory(i + 1) && AllClear(w, marks, i + 1) && torn.None?
      ensures !Ends(r) ==> IdleSame(was, wasMarks, lo, i + 1) && AsCalled(w, was, slots, lo, i + 1)
      ensures Ends(r) ==> Standing(torn, hi) && ClearBut(i) && IdleSame(was, wasMarks, lo, hi)
      ensures r.Failed? ==> ClearTo(w, marks, r.offset, hi)
      ensures !r.Torn? ==> torn.None?
      ensures r.Torn? ==> LeftTorn(w, slots, i, torn, weather, Met(w, was, lo, i))
    {
      ghost var mid, marked := slots, marks;
      assert Known(i);
      CalledTells(was, lo, i);
      SameTells(was, wasMarks, lo, i);
      r, torn := Handle(i, weather);
      NextSame(was, wasMarks, mid, marked, lo, i);
      StillKept(i, mid, marked, lo);
      NotesOnly(i, mid, marked, r, weather);
      if Ends(r) {
        if !r.Torn? { MemoryStands(i + 1, i + 1); }
        StandsLater(torn, i + 1, hi);
        OneShort(i, mid, marked);
        IdleLess(was, wasMarks, lo, i + 1, hi);
        TellsTorn(r, torn, i, weather, mid[w.calls[i].producer]);
      } else {
        CalledNext(was, mid, marked, lo, i);
      }
    }

    lemma NotesOnly(i: nat, mid: map<Id, Slot<S>>, marked: map<Id, Mark>, r: Outcome, weather: Weather<S>)
      requires i < |w.calls| && Touched(i, mid, marked) && NotedHere(i, marked, r) && w.calls[i].producer in mid
      requires r == OutcomeOf(w, w.calls[i], weather, RedoOf(mid[w.calls[i].producer]))
      ensures NotedOnly(marked, marks, i, weather.recorded)
    {
    }

    lemma TellsTorn(r: Outcome, torn: Option<Id>, i: nat, weather: Weather<S>, was: Slot<S>)
      requires i < |w.calls| && w.calls[i].producer in slots
      requires Told(r, torn, w.calls[i], weather, was, slots[w.calls[i].producer])
      ensures r.Torn? ==> LeftTorn(w, slots, i, torn, weather, RedoOf(was))
    {
    }

    lemma SameTells(was: map<Id, Slot<S>>, marked: map<Id, Mark>, lo: nat, i: nat)
      requires i <= |w.calls| && IdleSame(was, marked, lo, i)
      ensures forall p :: p in slots && w.Idle(p, lo, i) ==> slots[p] == was[p] && marks[p] == marked[p]
    {
      forall p | p in slots && w.Idle(p, lo, i) ensures slots[p] == was[p] && marks[p] == marked[p] {
        assert Same(was, marked, p);
      }
    }

    lemma StillKept(i: nat, mid: map<Id, Slot<S>>, marked: map<Id, Mark>, lo: nat)
      requires i < |w.calls| && marks.Keys == marked.Keys && Touched(i, mid, marked) && AllKept(w, marked, lo)
      ensures AllKept(w, marks, lo)
    {
      forall p | p in marks ensures Kept(w, marks, p, lo) { assert Kept(w, marked, p, lo); }
    }

    lemma OneShort(i: nat, mid: map<Id, Slot<S>>, marked: map<Id, Mark>)
      requires i < |w.calls| && marks.Keys == marked.Keys && Touched(i, mid, marked)
      requires AllClear(w, marked, i)
      ensures ClearBut(i)
    {
      forall p | p in marks && p != w.calls[i].producer ensures Clear(w, marks, p, i) { assert Clear(w, marked, p, i); }
    }

    lemma NextSame(was: map<Id, Slot<S>>, marked: map<Id, Mark>, mid: map<Id, Slot<S>>, midMarks: map<Id, Mark>,
                   lo: nat, i: nat)
      requires lo <= i < |w.calls| && was.Keys == marked.Keys == mid.Keys == midMarks.Keys
      requires forall p :: p in mid ==> mid[p].saved == was[p].saved && midMarks[p].saved == marked[p].saved
      requires forall p :: p in mid && w.Idle(p, lo, i) ==> mid[p] == was[p] && midMarks[p] == marked[p]
      requires Touched(i, mid, midMarks)
      ensures SavedSame(was, marked) && IdleSame(was, marked, lo, i + 1)
    {
      forall p | p in slots && w.Idle(p, lo, i + 1) ensures Same(was, marked, p) { assert w.Idle(p, lo, i); }
    }

    lemma StandsLater(torn: Option<Id>, k: nat, k': nat)
      requires Standing(torn, k) && k <= k'
      ensures Standing(torn, k')
    {
      forall p | p in slots ensures Up(w, slots, marks, torn, p, k') { assert Up(w, slots, marks, torn, p, k); }
    }

    /** The calls of one page in order, up to the first that ends it: the record
        to resume at, if any. A producer without a call in the page is left
        alone, and all but that of the call that ended it hold every call before
        it; which call that is, what becomes of it and what it tears are those
        that the page's calls amount to. */
    method Dispatch(lo: nat, hi: nat, calls: nat -> Weather<S>)
      returns (failedAt: Option<nat>, stopped: bool, torn: Option<Id>)
      requires lo <= hi <= |w.calls| && Memory(lo) && AllClear(w, marks, lo) && AllKept(w, marks, lo)
      modifies this`slots, this`marks
      ensures Standing(torn, hi) && AllKept(w, marks, lo)
      ensures SavedSame(old(slots), old(marks)) && IdleSame(old(slots), old(marks), lo, hi)
      ensures NotedBy(old(marks), marks, lo, hi, calls)
      ensures NoneEnds(w, old(slots), lo, hi, calls) ==>
        failedAt.None? && !stopped && torn.None? && AllClear(w, marks, hi) && AsCalled(w, old(slots), slots, lo, hi)
      ensures !NoneEnds(w, old(slots), lo, hi, calls) ==>
        exists i :: lo <= i < hi && EndedAt(old(slots), lo, i, calls, failedAt, stopped, torn)
      ensures failedAt.Some? ==> ClearTo(w, marks, failedAt.value, hi)
    {
      var i := lo;
      failedAt, stopped, torn := None, false, None;
      while i < hi
        invariant lo <= i <= hi && Memory(i) && AllClear(w, marks, i) && AllKept(w, marks, lo)
        invariant SavedSame(old(slots), old(marks)) && IdleSame(old(slots), old(marks), lo, i)
        invariant NotedBy(old(marks), marks, lo, i, calls)
        invariant AsCalled(w, old(slots), slots, lo, i) && NoneEnds(w, old(slots), lo, i, calls)
      {
        var r: Outcome;
        ghost var marked := marks;
        r, torn := HandleNext(i, lo, hi, calls(i), old(slots), old(marks));
        NotedMore(old(marks), marked, marks, lo, i, hi, calls);
        if Ends(r) {
          failedAt, stopped := if r.Failed? then Some(r.offset) else None, !r.Failed?;
          assert EndedAt(old(slots), lo, i, calls, failedAt, stopped, torn);
          return;
        }
        i := i + 1;
      }
      torn := None;
      MemoryStands(hi, hi);
    }

    /** The page's calls ended with call `i`, and what came of it. */
    ghost predicate EndedAt(was: map<Id, Slot<S>>, lo: nat, i: nat, calls: nat -> Weather<S>,
                            failedAt: Option<nat>, stopped: bool, torn: Option<Id>)
      requires lo <= i < |w.calls|
      reads this
    {
      var r := OutcomeAt(w, was, lo, i, calls);
      && EndsFirst(w, was, lo, i, calls) && ClearBut(i)
      && EndsWith(r, failedAt, stopped)
      && (if r.Torn? then LeftTorn(w, slots, i, torn, calls(i), Met(w, was, lo, i)) else torn.None?)
    }

    /** A write the node refused or did not confirm: every producer of the
        page goes back to the page's start, and none of them is saved. */
    method Abandon(torn: Option<Id>, ghost hi: nat, ghost lo: nat)
      requires lo <= hi <= |w.calls| && Standing(torn, hi) && AllKept(w, marks, lo)
      modifies this`slots, this`marks
      ensures Standing(None, hi) && AllKept(w, marks, lo) && AllClear(w, marks, lo)
      ensures forall p :: p in ids ==> slots[p].saved == old(slots[p].saved) && marks[p].saved == old(marks[p].saved)
      ensures AllBack(slots) && NotedSame(old(marks), marks)
    {
      slots := map p | p in ids :: Abandoned(slots[p]);
      marks := map p | p in ids :: marks[p].(now := marks[p].saved, base := marks[p].saved);
      AbandonedOk(w, old(slots), old(marks), torn, slots, marks, hi, lo);
    }

    /** Save each producer's checkpoint and release it. A producer whose
        checkpoint cannot be saved goes back to the page's start; the earliest
        first record of one of those is where the page has to resume. */
    method Finish(unsaved: set<Id>) returns (failed: Option<nat>)
      requires slots.Keys == marks.Keys == ids
      modifies this`slots, this`marks
      ensures slots.Keys == marks.Keys == ids
      ensures AllClosed(old(slots), old(marks), slots, marks, unsaved)
      ensures failed.Some? ==> exists p :: p in ids && LostAt(old(slots[p]), p in unsaved, failed.value)
      ensures forall p :: p in ids && Lost(old(slots[p]), p in unsaved) ==>
        failed.Some? && failed.value <= old(slots[p].entry.value.first.value)
    {
      var todo := ids;
      failed := None;
      while todo != {}
        invariant todo <= ids && slots.Keys == marks.Keys == ids
        invariant forall p :: p in todo ==> slots[p] == old(slots[p]) && marks[p] == old(marks[p])
        invariant forall p :: p in ids && p !in todo ==>
          && slots[p] == Closed(old(slots[p]), p in unsaved)
          && marks[p] == ClosedMark(old(slots[p]), old(marks[p]), p in unsaved)
        invariant failed.Some? ==> SomeLost(old(slots), unsaved, failed.value)
        invariant forall p :: p in ids && p !in todo && Lost(old(slots[p]), p in unsaved) ==>
          failed.Some? && failed.value <= old(slots[p].entry.value.first.value)
        decreases todo
      {
        var p :| p in todo;
        if Lost(slots[p], p in unsaved) {
          assert LostAt(old(slots[p]), p in unsaved, slots[p].entry.value.first.value);
        }
        failed := CloseOne(p, p in unsaved, failed);
        todo := todo - {p};
      }
    }

    /** Save one producer's state, or put it back to the page's start. */
    method CloseOne(p: Id, unsaved: bool, failed: Option<nat>) returns (next: Option<nat>)
      requires p in slots && p in marks
      modifies this`slots, this`marks
      ensures slots == old(slots)[p := Closed(old(slots[p]), unsaved)]
      ensures marks == old(marks)[p := ClosedMark(old(slots[p]), old(marks[p]), unsaved)]
      ensures next == if Lost(old(slots[p]), unsaved) then Earlier(failed, old(slots[p]).entry.value.first) else failed
    {
      next := if Lost(slots[p], unsaved) then Earlier(failed, slots[p].entry.value.first) else failed;
      marks := marks[p := ClosedMark(slots[p], marks[p], unsaved)];
      slots := slots[p := Closed(slots[p], unsaved)];
    }

    /** A producer's first record of the page, which its state was lost at. */
    ghost predicate SomeLost(was: map<Id, Slot<S>>, unsaved: set<Id>, at: nat) {
      exists p :: p in ids && p in was && LostAt(was[p], p in unsaved, at)
    }

    /** The end of a page, with the page's commit. `at` is the record a call
        or a write failed at. */
    method Close(at: Option<nat>, unsaved: set<Id>, upto: nat, stopped: bool, torn: Option<Id>)
      returns (resume: Option<nat>)
      requires Standing(torn, w.Passed(upto)) && AllKept(w, marks, w.Passed(settled)) && cursor <= settled
      requires torn.Some? ==> stopped
      requires at.None? && !stopped ==> AllClear(w, marks, w.Passed(upto))
      requires at.Some? ==> ClearTo(w, marks, at.value, w.Passed(upto))
      modifies this`slots, this`marks, this`settled
      ensures Healed(old(slots), torn, unsaved) ==> Valid()
      ensures !Healed(old(slots), torn, unsaved) ==> torn.Some? && SavedTorn(torn.value)
      ensures AllClosed(old(slots), old(marks), slots, marks, unsaved)
      ensures at.Some? ==> resume.Some? && resume.value <= at.value
      ensures unsaved == {} ==> resume == at
      ensures stopped ==> settled == old(settled)
      ensures !stopped ==> settled == Max(old(settled), Reached(resume, upto))
    {
      var failed := Finish(unsaved);
      resume := Earlier(at, failed);
      if Healed(old(slots), torn, unsaved) {
        ClosedOk(w, old(slots), old(marks), slots, marks, unsaved, torn, w.Passed(upto));
      }
      ClosedKept(w, old(slots), old(marks), slots, marks, unsaved, torn, w.Passed(upto), w.Passed(settled));
      if !stopped {
        ReachedCommits(w, old(slots), old(marks), slots, marks, unsaved, upto, at, failed);
        if Reached(resume, upto) > settled { settled := Reached(resume, upto); }
      }
    }

    /** A checkpoint was saved that no run of the calls leads to. */
    ghost predicate SavedTorn(p: Id)
      reads this
    {
      p in ids && p in slots && w.NoFold(p, slots[p].saved)
    }

    /** Such a checkpoint is not durable state. */
    lemma TornIsNotDurable(p: Id)
      requires SavedTorn(p)
      ensures !Durable() && !Valid()
    {
      if Valid() { ValidIsDurable(); }
    }

    /** The page's writes were not confirmed: it is handled again from its
        first handled record, or from an earlier one a call failed at. */
    method Refuse(at: Option<nat>, torn: Option<Id>, lo: nat, hi: nat) returns (resume: Option<nat>)
      requires lo < hi <= |w.calls| && Standing(torn, hi) && AllKept(w, marks, lo)
      requires lo == w.Passed(Below(w.calls[lo].offset))
      requires at.Some? ==> at.value > 0
      modifies this`slots, this`marks
      ensures Standing(None, hi) && AllKept(w, marks, lo)
      ensures forall p :: p in ids ==> slots[p].saved == old(slots[p].saved) && marks[p].saved == old(marks[p].saved)
      ensures AllBack(slots) && NotedSame(old(marks), marks)
      ensures resume.Some? && 0 < resume.value <= w.calls[lo].offset
      ensures ClearTo(w, marks, resume.value, lo)
    {
      assert Numbered(w.calls[lo]);
      Abandon(torn, hi, lo);
      resume := Earlier(at, Some(w.calls[lo].offset));
      w.UptoMonotone(resume.value - 1, w.calls[lo].offset - 1, |w.calls|);
      ClearBelow(w, marks, lo, w.Passed(resume.value - 1));
    }

    /** A page's calls, and what they tore. */
    method Calls(lo: nat, hi: nat, calls: nat -> Weather<S>)
      returns (failedAt: Option<nat>, stopped: bool, torn: Option<Id>)
      requires lo <= hi <= |w.calls| && Valid() && lo <= w.Passed(settled)
      modifies this`slots, this`marks
      ensures Standing(torn, hi) && AllKept(w, marks, lo)
      ensures forall p :: p in ids ==> slots[p].saved == old(slots[p].now) && marks[p].saved == old(marks[p].saved)
      ensures failedAt.None? && !stopped ==> AllClear(w, marks, hi)
      ensures failedAt.Some? ==> ClearTo(w, marks, failedAt.value, hi)
      ensures EndAsTold(w, old(slots), lo, hi, calls, failedAt, stopped)
      ensures torn.Some? ==> stopped
      ensures NotedBy(old(marks), marks, lo, hi, calls)
      ensures CallsTold(w, old(slots), slots, lo, hi, calls, torn)
    {
      PageStarts(lo);
      NothingCalled(lo);
      failedAt, stopped, torn := Dispatch(lo, hi, calls);
      DispatchTears(old(slots), lo, hi, calls, failedAt, stopped, torn);
    }

    /** A page's calls and the confirmation of its writes. */
    method Body(lo: nat, hi: nat, weather: PageWeather<S>)
      returns (at: Option<nat>, stopped: bool, torn: Option<Id>)
      requires Valid() && lo <= hi <= |w.calls| && lo <= w.Passed(settled)
      requires lo < hi ==> lo == w.Passed(Below(w.calls[lo].offset))
      modifies this`slots, this`marks
      ensures Standing(torn, hi) && AllKept(w, marks, w.Passed(settled))
      ensures forall p :: p in ids ==> slots[p].saved == old(slots[p].now) && marks[p].saved == old(marks[p].saved)
      ensures at.None? && !stopped ==> AllClear(w, marks, hi)
      ensures at.Some? ==> ClearTo(w, marks, at.value, hi)
      ensures lo < hi && weather.writes.Refused? ==> torn.None? && AllBack(slots)
      ensures lo < hi && weather.writes.CutShort? ==> stopped
      ensures lo == hi || !weather.writes.Refused? ==> CallsTold(w, old(slots), slots, lo, hi, weather.calls, torn)
      ensures lo == hi || weather.writes.NoWrites? || weather.writes.Confirmed? ==>
        EndAsTold(w, old(slots), lo, hi, weather.calls, at, stopped)
      ensures torn.Some? ==> stopped
      ensures NotedBy(old(marks), marks, lo, hi, weather.calls)
    {
      PageStarts(0);
      at, stopped, torn := Calls(lo, hi, weather.calls);
      ghost var mid := marks;
      if lo < hi { at, stopped, torn := Settle(at, stopped, torn, lo, hi, weather.writes); }
      NotedThen(old(marks), mid, marks, lo, hi, weather.calls);
      SavedKept(old(marks), w.Passed(settled));
    }

    /** Waiting for the node to confirm the page's writes. When it is cancelled
        the page ends there; when one is refused its producers go back. */
    method Settle(at: Option<nat>, stopped: bool, torn: Option<Id>, lo: nat, hi: nat, writes: Writes)
      returns (resume: Option<nat>, ends: bool, left: Option<Id>)
      requires lo < hi <= |w.calls| && Standing(torn, hi) && AllKept(w, marks, lo)
      requires lo == w.Passed(Below(w.calls[lo].offset))
      requires at.Some? ==> 0 < at.value
      modifies this`slots, this`marks
      ensures Standing(left, hi)
      ensures !writes.Refused? ==> slots == old(slots) && marks == old(marks) && left == torn
      ensures forall p :: p in ids ==> slots[p].saved == old(slots[p].saved) && marks[p].saved == old(marks[p].saved)
      ensures NotedSame(old(marks), marks)
      ensures writes.Refused? ==> left.None? && ends == stopped && resume.Some? && AllBack(slots)
      ensures writes.Refused? ==> ClearTo(w, marks, resume.value, lo)
      ensures writes.CutShort? ==> resume.None? && ends
      ensures writes.NoWrites? || writes.Confirmed? ==> resume == at && ends == stopped
    {
      resume, ends, left := at, stopped, torn;
      if writes.Refused? {
        resume := Refuse(at, torn, lo, hi);
        left := None;
      } else if writes.CutShort? {
        resume, ends := None, true;
      }
    }

    /** Before its calls a page has made nothing of the producers. */
    lemma NothingCalled(lo: nat)
      requires lo <= |w.calls|
      ensures AsCalled(w, slots, slots, lo, lo)
    {
      forall p | p in slots ensures CalledTo(w, slots, slots, lo, lo, p) {}
    }

    /** What a page's dispatch tore is what its calls amount to. */
    lemma DispatchTears(was: map<Id, Slot<S>>, lo: nat, hi: nat, calls: nat -> Weather<S>,
                        failedAt: Option<nat>, stopped: bool, torn: Option<Id>)
      requires lo <= hi <= |w.calls|
      requires NoneEnds(w, was, lo, hi, calls) ==> failedAt.None? && !stopped && torn.None?
      requires !NoneEnds(w, was, lo, hi, calls) ==>
        exists i :: lo <= i < hi && EndedAt(was, lo, i, calls, failedAt, stopped, torn)
      ensures TornAsTold(w, was, slots, lo, hi, calls, torn) && EndAsTold(w, was, lo, hi, calls, failedAt, stopped)
    {
      if !NoneEnds(w, was, lo, hi, calls) {
        var i :| lo <= i < hi && EndedAt(was, lo, i, calls, failedAt, stopped, torn);
        forall j | lo <= j < hi && EndsFirst(w, was, lo, j, calls) ensures j == i { OneEnd(w, was, lo, i, j, calls); }
        if torn.Some? { assert TearsAt(w, was, lo, i, calls); }
      }
    }

    /** One page, read from behind `after` and handled up to `upto`. `resume`
        is the record the page has to be handled from again, if any; `torn` is
        the producer a cancelled replay left other than it found. Everything is
        still durable exactly when the page saves no such memory. */
    method Page(after: nat, upto: nat, weather: PageWeather<S>)
      returns (resume: Option<nat>, stopped: bool, torn: Option<Id>)
      requires Valid() && Accounted() && cursor <= after <= settled && after <= upto
      modifies this`slots, this`marks, this`settled, this`tearing, this`sure, this`unsure
      ensures slots.Keys == ids
      ensures Valid() <==> !PageTears(w, old(slots), after, upto, weather)
      ensures Valid() ==> Accounted()
      ensures CountedBy(old(slots), old(sure), old(unsure), WritesAre(w, CutShort, weather, after, upto))
      ensures tearing == if Valid() then old(tearing) else old(tearing) + [PageEvent(after, upto, weather)]
      ensures Valid() <==> torn.None? || torn.value in weather.unsaved
      ensures !Valid() ==> SavedTorn(torn.value)
      ensures forall p :: SavesTorn(w, old(slots), after, upto, weather, p) ==> torn == Some(p) && SavedTorn(p)
      ensures forall p :: p in weather.unsaved && p in ids ==> slots[p] == old(slots[p])
      ensures settled == if stopped then old(settled) else Max(old(settled), Reached(resume, upto))
      ensures WritesAre(w, Refused, weather, after, upto) ==> slots == old(slots)
      ensures WritesAre(w, CutShort, weather, after, upto) ==> stopped
      ensures w.Passed(after) <= w.Passed(upto)
      ensures NotedBy(old(marks), marks, w.Passed(after), w.Passed(upto), weather.calls)
      ensures Smooth(weather, after, upto) && weather.unsaved == {} ==>
        EndAsTold(w, old(slots), w.Passed(after), w.Passed(upto), weather.calls, resume, stopped)
      ensures !WritesAre(w, Refused, weather, after, upto) ==>
        SavedAsTold(w, old(slots), slots, w.Passed(after), w.Passed(upto), weather)
      ensures Quiet(weather, after, upto) ==> resume.None? && !stopped && torn.None?
    {
      ghost var was, wasMarks := slots, marks;
      PageStarts(0);
      w.UptoMonotone(after, settled, |w.calls|);
      w.UptoMonotone(after, upto, |w.calls|);
      if w.Passed(after) < w.Passed(upto) { w.PassedBeforeNext(after); }
      QuietGoesOn(was, after, upto, weather);
      resume, stopped, torn := Body(w.Passed(after), w.Passed(upto), weather);
      ghost var mid, midMarks := slots, marks;
      TearsTold(w, was, slots, after, upto, weather, torn);
      StillCounted(w, was, slots, sure, unsure);
      resume := CloseTorn(resume, upto, stopped, torn, weather.unsaved, PageEvent(after, upto, weather),
        WritesAre(w, CutShort, weather, after, upto));
      UnsavedStays(w, was, mid, midMarks, slots, marks, torn, weather.unsaved, w.Passed(upto));
      SameNewly(w, was, mid, slots);
      if WritesAre(w, Refused, weather, after, upto) {
        ClosedAsBefore(w, was, mid, midMarks, slots, marks, weather.unsaved);
      } else {
        ClosedAsTold(w, was, mid, midMarks, slots, marks, w.Passed(after), w.Passed(upto), weather, torn);
      }
      ClosedNotes(mid, midMarks, slots, marks, weather.unsaved);
      NotedThen(wasMarks, midMarks, marks, w.Passed(after), w.Passed(upto), weather.calls);
    }

    /** The calls a page saved: whether its writes were confirmed. */
    ghost predicate CountedBy(was: map<Id, Slot<S>>, sured: set<nat>, unsured: set<nat>, cut: bool)
      reads this`slots, this`sure, this`unsure
    {
      && sure == (if cut then sured else sured + Newly(w, was, slots))
      && unsure == (if cut then unsured + Newly(w, was, slots) else unsured)
    }

    ghost method Count(was: map<Id, Slot<S>>, cut: bool)
      requires Valid() ==> Counted(w, slots, sure + Newly(w, was, slots), unsure)
      requires Valid() ==> Counted(w, slots, sure, unsure + Newly(w, was, slots))
      modifies this`sure, this`unsure
      ensures Valid() ==> Accounted()
      ensures CountedBy(was, old(sure), old(unsure), cut)
    {
      var more := Newly(w, was, slots);
      sure, unsure := if cut then sure else sure + more, if cut then unsure + more else unsure;
    }

    /** The end of a page, with a memory that a cancelled replay tore. */
    method CloseTorn(at: Option<nat>, upto: nat, stopped: bool, torn: Option<Id>, unsaved: set<Id>,
                     ghost page: Event<S>, ghost cut: bool) returns (resume: Option<nat>)
      requires Accounted() && Standing(torn, w.Passed(upto)) && AllKept(w, marks, w.Passed(settled))
      requires cursor <= settled
      requires torn.Some? ==> stopped
      requires at.None? && !stopped ==> AllClear(w, marks, w.Passed(upto))
      requires at.Some? ==> ClearTo(w, marks, at.value, w.Passed(upto))
      modifies this`slots, this`marks, this`settled, this`tearing, this`sure, this`unsure
      ensures AllClosed(old(slots), old(marks), slots, marks, unsaved) && slots.Keys == ids
      ensures Valid() ==> Accounted()
      ensures CountedBy(old(slots), old(sure), old(unsure), cut)
      ensures Valid() <==> torn.None? || torn.value in unsaved
      ensures !Valid() ==> SavedTorn(torn.value)
      ensures tearing == if Valid() then old(tearing) else old(tearing) + [page]
      ensures unsaved == {} ==> resume == at
      ensures settled == if stopped then old(settled) else Max(old(settled), Reached(resume, upto))
    {
      resume := Close(at, unsaved, upto, stopped, torn);
      if Valid() {
        ClosedCounts(w, old(slots), old(marks), slots, marks, unsaved, torn, w.Passed(upto), sure, unsure);
      }
      Count(old(slots), cut);
      if torn.Some? && torn.value !in unsaved {
        TornIsNotDurable(torn.value);
        tearing := tearing + [page];
      }
    }

    /** The page's writes, if any, are confirmed. */
    ghost predicate Smooth(weather: PageWeather<S>, after: nat, upto: nat) {
      !WritesAre(w, Refused, weather, after, upto) && !WritesAre(w, CutShort, weather, after, upto)
    }

    /** Nothing goes wrong in the page. */
    ghost predicate Quiet(weather: PageWeather<S>, after: nat, upto: nat) {
      && Smooth(weather, after, upto)
      && weather.unsaved == {}
      && forall i :: w.Passed(after) <= i < w.Passed(upto) ==> weather.calls(i).fate.Returns? && !w.rejects(w.calls[i])
    }

    lemma QuietGoesOn(was: map<Id, Slot<S>>, after: nat, upto: nat, weather: PageWeather<S>)
      requires w.Passed(after) <= w.Passed(upto)
      ensures Quiet(weather, after, upto) ==> NoneEnds(w, was, w.Passed(after), w.Passed(upto), weather.calls)
      ensures Quiet(weather, after, upto) ==> !PageTears(w, was, after, upto, weather)
    {
    }

    lemma PageStarts(lo: nat)
      requires Valid() && lo <= w.Passed(settled)
      ensures Memory(lo) && AllKept(w, marks, lo) && AllClear(w, marks, lo)
      ensures forall p :: p in ids ==> slots[p] == Slot(slots[p].saved, slots[p].saved, None)
    {
      forall p | p in ids
        ensures Ok(w, slots, marks, p, lo) && Kept(w, marks, p, lo) && Clear(w, marks, p, lo)
        ensures slots[p] == Slot(slots[p].saved, slots[p].saved, None)
      {
        assert Ok(w, slots, marks, p, 0) && Kept(w, marks, p, w.Passed(settled));
      }
    }

    // ---------------------------------------------------------- runs

    /** The node takes an acknowledgement of what was handled; it only moves forward. */
    method Acknowledge(offset: nat)
      requires Valid() && offset <= settled
      modifies this`cursor
      ensures Valid() && cursor == Max(old(cursor), offset)
    {
      if offset > cursor { cursor := offset; }
    }

    /** A crash, in the middle of a page too, and a restart: what was not
        committed is gone, the producers are restored from their checkpoints,
        and the node's cursor says where reading resumes. */
    method Restart(torn: Option<Id>, ghost k: nat)
      requires Standing(torn, k) && AllKept(w, marks, w.Passed(settled)) && cursor <= settled
      modifies this`slots, this`marks, this`settled
      ensures Valid() && settled == cursor
      ensures forall p :: p in ids ==> slots[p] == Slot(old(slots[p].saved), old(slots[p].saved), None)
      ensures NotedSame(old(marks), marks)
    {
      w.UptoMonotone(cursor, settled, |w.calls|);
      slots := map p | p in ids :: Slot(slots[p].saved, slots[p].saved, None);
      marks := map p | p in ids :: marks[p].(now := marks[p].saved);
      RestartedOk(w, old(slots), old(marks), torn, slots, marks, k, w.Passed(settled), w.Passed(cursor));
      settled := cursor;
    }

    /** A crash between two pages. */
    method RestartIdle()
      requires Valid()
      modifies this`slots, this`marks, this`settled
      ensures Valid() && settled == cursor && slots == old(slots) && NotedSame(old(marks), marks)
    {
      PageStarts(0);
      MemoryStands(0, 0);
      Restart(None, 0);
      forall p | p in ids ensures slots[p] == old(slots)[p] {
        assert slots[p] == Slot(old(slots[p].saved), old(slots[p].saved), None);
      }
      assert slots == old(slots);
    }

    /** A page that a crash ends after some of its calls. */
    method PageCutShort(after: nat, calls: nat, weather: PageWeather<S>)
      requires Valid() && cursor <= after <= settled && w.Passed(after) + calls <= |w.calls|
      modifies this`slots, this`marks, this`settled
      ensures Valid() && settled == cursor && slots == old(slots)
      ensures NotedBy(old(marks), marks, w.Passed(after), w.Passed(after) + calls, weather.calls)
    {
      w.UptoMonotone(after, settled, |w.calls|);
      var lo := w.Passed(after);
      ghost var was, wasMarks := slots, marks;
      PageStarts(lo);
      var torn := SomeCalls(lo, lo + calls, weather.calls);
      ghost var midMarks := marks;
      Restart(torn, lo + calls);
      NotedThen(wasMarks, midMarks, marks, lo, lo + calls, weather.calls);
      BackAsBefore(was, slots);
    }

    lemma BackAsBefore(was: map<Id, Slot<S>>, slots: map<Id, Slot<S>>)
      requires was.Keys == slots.Keys && forall p :: p in was ==> was[p] == Slot(was[p].saved, was[p].saved, None)
      requires forall p :: p in slots ==> slots[p] == Slot(was[p].saved, was[p].saved, None)
      ensures slots == was
    {
    }

    /** Calls of a page that will not end. */
    method SomeCalls(lo: nat, hi: nat, calls: nat -> Weather<S>) returns (torn: Option<Id>)
      requires lo <= hi <= |w.calls| && Memory(lo) && AllClear(w, marks, lo) && AllKept(w, marks, lo)
      requires AllKept(w, marks, w.Passed(settled))
      modifies this`slots, this`marks
      ensures Standing(torn, hi) && AllKept(w, marks, w.Passed(settled))
      ensures forall p :: p in ids ==> slots[p].saved == old(slots[p].saved)
      ensures NotedBy(old(marks), marks, lo, hi, calls)
    {
      ghost var wasMarks := marks;
      var _, _, broken := Dispatch(lo, hi, calls);
      SavedKept(wasMarks, w.Passed(settled));
      torn := broken;
    }

    /** Only these checkpoints have been committed. */
    function Part(weather: PageWeather<S>, committed: set<Id>): PageWeather<S> {
      weather.(unsaved := weather.unsaved + (ids - committed))
    }

    /** A page that a crash ends while it saves: another writer has committed
        the checkpoints of some producers by then. The others are as before. */
    method PageCutAtEnd(after: nat, upto: nat, weather: PageWeather<S>, committed: set<Id>) returns (whole: bool)
      requires Valid() && Accounted() && cursor <= after <= settled && after <= upto
      modifies this`slots, this`marks, this`settled, this`tearing, this`sure, this`unsure
      ensures slots.Keys == ids
      ensures Valid() <==> !PageTears(w, old(slots), after, upto, Part(weather, committed))
      ensures Valid() ==> Accounted()
      ensures CountedBy(old(slots), old(sure), old(unsure), WritesAre(w, CutShort, weather, after, upto))
      ensures whole <==> Valid()
      ensures (tearing == old(tearing)) <==> Valid()
      ensures !whole ==> !Durable()
      ensures forall p :: p in ids && (p !in committed || p in weather.unsaved) ==> slots[p] == old(slots[p])
      ensures settled == cursor
      ensures whole ==> PageDid(w, old(Now()), Now(), after, upto, Part(weather, committed))
      ensures NotedBy(old(marks), marks, w.Passed(after), w.Passed(upto), weather.calls)
    {
      var part := Part(weather, committed);
      var _, _, torn := Page(after, upto, part);
      whole := torn.None? || torn.value in part.unsaved;
      if whole {
        ghost var midMarks := marks;
        RestartIdle();
        NotedThen(old(marks), midMarks, marks, w.Passed(after), w.Passed(upto), part.calls);
      } else {
        settled := cursor;
        TornIsNotDurable(torn.value);
      }
    }

    /** Any run: pages read from anywhere between the cursor and what was
        handled, with any handler failing, rejecting or being cancelled, any
        write refused or its confirmation cancelled, any checkpoint unsaved,
        acknowledgements late, lost or never sent, and crashes. It is followed
        up to the first page that saves a memory which a cancelled replay left
        other than it found; everything is durable exactly when there is none.
        `path` is where the lane stood before each event and behind the last. */
    method Run(script: seq<Event<S>>) returns (ghost path: seq<Place<S>>)
      requires Valid() && Accounted() && tearing == []
      modifies this
      ensures Durable() <==> tearing == []
      ensures Valid() <==> tearing == []
      ensures NoneCancelled(script) ==> tearing == []
      ensures path != [] && path[0] == old(Now()) && IsPath(path, script, |path| - 1)
      ensures tearing == [] ==> |path| == |script| + 1 && path[|script|] == Now()
      ensures tearing != [] ==> |path| <= |script| && EventTears(path[|path| - 1], script[|path| - 1])
      ensures tearing == [] ==> forall i :: 0 <= i < |w.calls| && PassedBy(i) ==> (i in sure <==> i !in unsure)
      ensures (forall i :: 0 <= i < |script| ==> !Unconfirmed(script[i])) ==> unsure == old(unsure)
      ensures tearing == [] ==> forall i :: 0 <= i < |w.calls| && SetAsideBy(i) ==>
        RecordedIn(script, |script|, i) || Notes(old(marks), w.calls[i].producer, i)
    {
      path := [Now()];
      for i := 0 to |script|
        invariant Valid() && Accounted() && tearing == []
        invariant IsPath(path, script, i) && path[0] == old(Now()) && path[i] == Now()
        invariant (forall j :: 0 <= j < i ==> !Unconfirmed(script[j])) ==> unsure == old(unsure)
        invariant NotedIn(old(marks), script, i)
      {
        ghost var mid := marks;
        CalmTearsNot(script[i]);
        var whole := Take(script[i]);
        if !whole { return; }
        NotedOn(old(marks), mid, script, i);
        PathOn(path, script, i, Now());
        path := path + [Now()];
      }
      ValidIsDurable();
      forall i | 0 <= i < |w.calls| && PassedBy(i) ensures i in sure <==> i !in unsure { PassedIsCounted(i); }
      forall i | 0 <= i < |w.calls| && SetAsideBy(i)
        ensures RecordedIn(script, |script|, i) || Notes(old(marks), w.calls[i].producer, i)
      {
        PassedIsNoted(i);
      }
    }

    /** One event of a run, if it is possible. */
    method Take(event: Event<S>) returns (whole: bool)
      requires Valid() && Accounted() && tearing == []
      modifies this
      ensures whole <==> tearing == []
      ensures whole <==> Valid()
      ensures !whole ==> !Durable()
      ensures !whole <==> EventTears(old(Now()), event)
      ensures whole ==> Did(old(Now()), event, Now())
      ensures whole ==> Accounted()
      ensures !Unconfirmed(event) ==> unsure == old(unsure)
      ensures NotedWith(old(marks), marks, event)
    {
      whole := true;
      match event
      case PageEvent(after, upto, weather) =>
        if cursor <= after <= settled && after <= upto { whole := TakePage(after, upto, weather); }
      case CrashInPage(after, calls, weather) =>
        if cursor <= after <= settled && w.Passed(after) + calls <= |w.calls| { PageCutShort(after, calls, weather); }
      case CrashAtEnd(after, upto, weather, committed) =>
        if cursor <= after <= settled && after <= upto { whole := PageCutAtEnd(after, upto, weather, committed); }
      case AckEvent(offset) =>
        if offset <= settled { Acknowledge(offset); }
      case CrashEvent => RestartIdle();
    }

    /** A page of a run. */
    method TakePage(after: nat, upto: nat, weather: PageWeather<S>) returns (whole: bool)
      requires Valid() && Accounted() && tearing == [] && cursor <= after <= settled && after <= upto
      modifies this`slots, this`marks, this`settled, this`tearing, this`sure, this`unsure
      ensures (whole <==> tearing == []) && (whole <==> Valid()) && (!whole ==> !Durable())
      ensures !whole <==> PageTears(w, old(slots), after, upto, weather)
      ensures whole ==> Accounted() && Did(old(Now()), PageEvent(after, upto, weather), Now())
      ensures !WritesAre(w, CutShort, weather, after, upto) ==> unsure == old(unsure)
      ensures NotedBy(old(marks), marks, w.Passed(after), w.Passed(upto), weather.calls)
    {
      var resume, stopped, torn := Page(after, upto, weather);
      whole := torn.None? || torn.value in weather.unsaved;
      if !whole { TornIsNotDurable(torn.value); }
    }

    /** What is noted was, or was recorded in one of the first so many events. */
    ghost predicate NotedIn(was: map<Id, Mark>, script: seq<Event<S>>, n: nat)
      requires n <= |script|
      reads this`marks
    {
      && marks.Keys == was.Keys
      && forall p, i: nat {:trigger Notes(marks, p, i)} :: Notes(marks, p, i) ==>
          Notes(was, p, i) || RecordedIn(script, n, i)
    }

    lemma NotedOn(was: map<Id, Mark>, mid: map<Id, Mark>, script: seq<Event<S>>, n: nat)
      requires n < |script| && was.Keys == mid.Keys && NotedWith(mid, marks, script[n])
      requires forall p, i: nat {:trigger Notes(mid, p, i)} :: Notes(mid, p, i) ==>
        Notes(was, p, i) || RecordedIn(script, n, i)
      ensures NotedIn(was, script, n + 1)
    {
      forall p, i: nat | Notes(marks, p, i) ensures Notes(was, p, i) || RecordedIn(script, n + 1, i) {
        if Records(script[n], i) {
        } else if !Notes(was, p, i) {
          assert Notes(mid, p, i);
          var j :| 0 <= j < n && Records(script[j], i);
        }
      }
    }

    ghost function Now(): Place<S>
      reads this`slots, this`settled, this`cursor
    {
      Place(slots, cursor, settled)
    }

    /** The event is a page that can come here. */
    ghost predicate Comes(a: Place<S>, event: Event<S>) {
      (event.PageEvent? || event.CrashAtEnd?) && a.cursor <= event.after <= a.settled && event.after <= event.upto
    }

    /** The event saves a memory that a cancelled replay left other than it found. */
    ghost predicate EventTears(a: Place<S>, event: Event<S>) {
      && Comes(a, event)
      && match event
         case PageEvent(after, upto, weather) => PageTears(w, a.slots, after, upto, weather)
         case CrashAtEnd(after, upto, weather, committed) =>
           PageTears(w, a.slots, after, upto, Part(weather, committed))
         case _ => false
    }

    /** What an event that tears nothing does, when it is possible; otherwise it
        does nothing. */
    ghost predicate Did(a: Place<S>, event: Event<S>, b: Place<S>) {
      match event
      case PageEvent(after, upto, weather) =>
        if !Comes(a, event) then b == a
        else
          && PageDid(w, a, b, after, upto, weather)
          && (WritesAre(w, CutShort, weather, after, upto) ==> b.settled == a.settled)
          && (Smooth(weather, after, upto) && weather.unsaved == {} ==>
                SettledAt(w, a.slots, a.settled, b.settled, after, upto, weather.calls))
      case CrashInPage(after, calls, weather) =>
        b == if a.cursor <= after <= a.settled && w.Passed(after) + calls <= |w.calls|
             then a.(settled := a.cursor) else a
      case CrashAtEnd(after, upto, weather, committed) =>
        if !Comes(a, event) then b == a
        else b.settled == a.cursor && PageDid(w, a, b, after, upto, Part(weather, committed))
      case AckEvent(offset) => b == if offset <= a.settled then a.(cursor := Max(a.cursor, offset)) else a
      case CrashEvent => b == a.(settled := a.cursor)
    }

    /** Each of the first so many events tore nothing where it came, and did what
        it is for. */
    ghost predicate IsPath(path: seq<Place<S>>, script: seq<Event<S>>, n: nat) {
      && n <= |script| && |path| == n + 1
      && forall k :: 0 <= k < n ==> !EventTears(path[k], script[k]) && Did(path[k], script[k], path[k + 1])
    }

    lemma PathOn(path: seq<Place<S>>, script: seq<Event<S>>, n: nat, next: Place<S>)
      requires n < |script| && IsPath(path, script, n) && !EventTears(path[n], script[n])
      requires Did(path[n], script[n], next)
      ensures IsPath(path + [next], script, n + 1)
    {
    }

    /** In the event the rejection of call `i` can be recorded. */
    ghost predicate Records(event: Event<S>, i: nat) {
      (event.PageEvent? || event.CrashInPage? || event.CrashAtEnd?) && event.weather.calls(i).recorded
    }

    /** What the event notes it records. */
    ghost predicate NotedWith(was: map<Id, Mark>, marks: map<Id, Mark>, event: Event<S>) {
      && marks.Keys == was.Keys
      && forall p, i: nat {:trigger Notes(marks, p, i)} :: Notes(marks, p, i) ==> Notes(was, p, i) || Records(event, i)
    }

    /** One of the first so many events records the rejection of call `i`. */
    ghost predicate RecordedIn(script: seq<Event<S>>, n: nat, i: nat)
      requires n <= |script|
    {
      exists j :: 0 <= j < n && Records(script[j], i)
    }

    /** Waiting for the confirmation of the event's writes is cancelled. */
    ghost predicate Unconfirmed(event: Event<S>) {
      (event.PageEvent? || event.CrashAtEnd?) && WritesAre(w, CutShort, event.weather, event.after, event.upto)
    }

    /** No handler of the event is cancelled when it runs again. */
    ghost predicate Calm(event: Event<S>) {
      event.PageEvent? || event.CrashAtEnd? ==> forall i :: event.weather.calls(i).replay.ReplayRaises?
    }

    ghost predicate NoneCancelled(script: seq<Event<S>>) {
      forall i :: 0 <= i < |script| ==> Calm(script[i])
    }

    lemma CalmTearsNot(event: Event<S>)
      ensures forall a :: Calm(event) ==> !EventTears(a, event)
    {
    }

    lemma SavedKept(was: map<Id, Mark>, k: nat)
      requires was.Keys == marks.Keys && AllKept(w, was, k)
      requires forall p :: p in was ==> marks[p].saved == was[p].saved
      ensures AllKept(w, marks, k)
    {
      forall p | p in marks ensures Kept(w, marks, p, k) { assert Kept(w, was, p, k); }
    }

    /** Only the producer of call `i` is touched, and not its checkpoint. */
    ghost predicate Touched(i: nat, was: map<Id, Slot<S>>, marked: map<Id, Mark>)
      requires i < |w.calls|
      reads this
    {
      var p := w.calls[i].producer;
      && p in slots && p in was && p in marks && p in marked
      && slots == was[p := slots[p]] && marks == marked[p := marks[p]]
      && slots[p].entry.Some? && slots[p].saved == was[p].saved && marks[p].saved == marked[p].saved
    }

    /** What a call tells: its outcome, the producer's slot before and after it,
        and the memory a cancelled replay tore. */
    ghost predicate Told(r: Outcome, torn: Option<Id>, c: Call, weather: Weather<S>, was: Slot<S>, s: Slot<S>) {
      && r == OutcomeOf(w, c, weather, RedoOf(was))
      && (!Ends(r) ==> RedoOf(s) == Next(w, c, RedoOf(was)))
      && (r.Stopped? ==> s.now == s.saved)
      && (r.Failed? ==> s.now == if weather.replays < |RedoOf(was).since| && weather.replay.ReplayRaises?
                                 then s.saved else was.now)
      && (r.Torn? ==> s.now == TornMemory(w, RedoOf(was), weather.replays, weather.replay.left))
      && (r.Torn? ==> torn == TornAt(c.producer, weather.replay.left, Found(w, RedoOf(was), weather.replays).state))
    }
  }

  /** Two records for one producer that counts them. */
  function TwoRecords(): World<int> {
    World([Call("p", "k", 1), Call("p", "k", 2)], p => 0, (c: Call, n: int) => n + 1, c => false)
  }

  lemma TwoRecordsValid()
    ensures TwoRecords().Valid() && TwoRecords().Passed(0) == 0 && TwoRecords().Passed(2) == 2
    ensures forall i :: 0 <= i < |TwoRecords().calls| ==> TwoRecords().calls[i].producer in {"p"}
  {
    TwoRecords().NothingPassed();
  }

  const FIRST := Call("p", "k", 1)

  /** The first handler returns. The second raises, and the first, run again, is
      cancelled after it counted. */
  function CancelledCalls(i: nat): Weather<int> {
    Weather(if i == 0 then Returns else Raises(1), 0, 0, ReplayCancelled(1), true)
  }

  const COUNTED: Redo<int> := Redo(Producer(1, map["k" := 1]), Producer(0, map[]), [FIRST], Some(1))

  lemma SecondTears(was: map<Id, Slot<int>>)
    requires "p" in was && was["p"] == Slot(Producer(0, map[]), Producer(0, map[]), None)
    ensures Met(TwoRecords(), was, 0, 1) == COUNTED
    ensures TearsAt(TwoRecords(), was, 0, 1, CancelledCalls)
  {
    var w := TwoRecords();
    assert Met(w, was, 0, 0) == RedoOf(was["p"]);
    assert Met(w, was, 0, 1) == Next(w, FIRST, RedoOf(was["p"])) == COUNTED;
    assert OutcomeAt(w, was, 0, 0, CancelledCalls) == Handled;
    assert OutcomeAt(w, was, 0, 1, CancelledCalls) == Torn;
    assert Found(w, COUNTED, 0) == Producer(0, map[]);
  }

  /** The page then saves a state that holds the first record without its
      offset: delivered again, it counts once more. */
  method CancelledReplay() returns (lane: Lane<int>)
    ensures fresh(lane) && lane.w == TwoRecords() && lane.cursor == 0 && lane.SavedTorn("p") && !lane.Durable()
    ensures lane.slots["p"].saved == Producer(1, map[])
    ensures lane.w.Ran(FIRST, lane.slots["p"].saved) == Producer(2, map["k" := 1])
  {
    TwoRecordsValid();
    lane := new Lane(TwoRecords(), {"p"});
    SecondTears(lane.slots);
    var weather := PageWeather(CancelledCalls, Confirmed, {});
    assert Tears(lane.w, lane.slots, 0, 2, CancelledCalls, "p");
    assert SavesTorn(lane.w, lane.slots, 0, 2, weather, "p");
    var _, _, torn := lane.Page(0, 2, weather);
    assert SavedLeft(lane.w, lane.slots, 1, CancelledCalls(1), COUNTED);
    lane.TornIsNotDurable("p");
  }

  /** Every handler returns. */
  function AllReturn(i: nat): Weather<int> { Weather(Returns, 0, 0, ReplayRaises, true) }

  const ONCE: Slot<int> := Slot(Producer(1, map["k" := 1]), Producer(1, map["k" := 1]), None)

  lemma FirstRuns(was: map<Id, Slot<int>>)
    requires "p" in was && (was["p"] == Slot(Producer(0, map[]), Producer(0, map[]), None) || was["p"] == ONCE)
    ensures TwoRecords().Passed(1) == 1
    ensures NoneEnds(TwoRecords(), was, 0, 1, AllReturn)
    ensures After(TwoRecords(), "p", RedoOf(was["p"]), 0, 1).now == ONCE.now
  {
    var w := TwoRecords();
    assert w.Upto(1, 1) == 1;
    assert After(w, "p", RedoOf(was["p"]), 0, 1) == Next(w, FIRST, RedoOf(was["p"]));
    assert Met(w, was, 0, 0) == RedoOf(was["p"]);
    assert !Ends(OutcomeAt(w, was, 0, 0, AllReturn));
  }

  lemma FirstSaved(was: map<Id, Slot<int>>, slots: map<Id, Slot<int>>)
    requires was.Keys == slots.Keys == {"p"} && slots["p"] == ONCE
    requires was["p"] == Slot(Producer(0, map[]), Producer(0, map[]), None) || was["p"] == ONCE
    ensures Newly(TwoRecords(), was, slots) == if was["p"] == ONCE then {} else {0}
  {
    var w := TwoRecords();
    assert InSaved(w, slots, 0) && !InSaved(w, slots, 1);
  }

  /** Waiting for the first record's write to be confirmed is cancelled, and the
      producer is saved all the same. */
  method SavedUnconfirmed() returns (lane: Lane<int>)
    ensures fresh(lane) && lane.w == TwoRecords() && lane.ids == {"p"} && lane.Valid() && lane.Accounted()
    ensures lane.slots.Keys == {"p"} && lane.slots["p"] == ONCE
    ensures lane.cursor == lane.settled == 0 && lane.sure == {} && lane.unsure == {0}
  {
    TwoRecordsValid();
    lane := new Lane(TwoRecords(), {"p"});
    ghost var was := lane.slots;
    FirstRuns(was);
    QuietlySaved(lane, CutShort);
    FirstSaved(was, lane.slots);
  }

  /** A page with the first record only, whose handler returns. */
  method QuietlySaved(lane: Lane<int>, writes: Writes)
    requires lane.w == TwoRecords() && lane.ids == {"p"} && lane.Valid() && lane.Accounted() && !writes.Refused?
    requires lane.cursor == lane.settled == 0 && lane.slots.Keys == {"p"}
    requires lane.slots["p"] == Slot(Producer(0, map[]), Producer(0, map[]), None) || lane.slots["p"] == ONCE
    modifies lane
    ensures lane.Valid() && lane.Accounted() && lane.slots.Keys == {"p"} && lane.slots["p"] == ONCE
    ensures lane.cursor == 0 && lane.settled == if writes.CutShort? then 0 else 1
    ensures lane.CountedBy(old(lane.slots), old(lane.sure), old(lane.unsure), writes.CutShort?)
  {
    TwoRecordsValid();
    FirstRuns(lane.slots);
    var _, _, _ := lane.Page(0, 1, PageWeather(AllReturn, writes, {}));
  }

  /** Delivered again, the record is skipped and acknowledged: no page ever had
      its write confirmed. */
  method CancelledConfirmation() returns (lane: Lane<int>)
    ensures fresh(lane) && lane.w == TwoRecords() && lane.Valid()
    ensures lane.cursor == 1 && lane.PassedBy(0) && lane.sure == {} && lane.unsure == {0}
  {
    lane := SavedUnconfirmed();
    ghost var was := lane.slots;
    QuietlySaved(lane, NoWrites);
    FirstSaved(was, lane.slots);
    lane.Acknowledge(1);
  }
}
