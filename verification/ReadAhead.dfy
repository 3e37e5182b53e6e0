/** The ingest's read-ahead loop, cut at its awaits.

    Each method is what runs between two awaits of the loop, of its background
    acknowledgements or of a rebind, so any schedule of them is a run.  `Safe`
    is what every such point keeps: the node's cursor and every acknowledgement
    queued, in flight or about to be sent lie within the contiguous range of
    offsets whose records were already processed. */
module ReadAhead {
  import opened Options
  import opened NodeStream

  /** A read under a stream handle (`filter` counts rebinds) from an offset. */
  datatype Fetch = Fetch(filter: nat, from: Option<nat>)

  /** What follows once the acknowledgements in flight are done. */
  datatype After = Wait | Read(filter: nat) | AckTo(offset: nat)

  /** Where the loop stands. */
  datatype Phase<R> =
    | Idle
    | Reading(fetch: Fetch)
    | Processing(filter: nat, from: nat, page: Page<R>)
    | Acking(offset: nat)
    | Restarting(after: After)

  /** A range of offsets that was processed: all records in it that filter
      `filter` matches, except those up to `lost`, which the node had pruned. */
  datatype Span<R> = Span(filter: nat, from: int, upto: int, lost: int, handled: seq<Record<R>>)

  datatype Step<R> =
    | BeginStep
    | PageArrives(page: Page<R>, from: nat)
    | FetchFails
    | PageProcessed
    | GapRefused
    | HandlerFails(record: nat)
    | AckSettles(ok: bool, applied: bool)
    | SyncAckSettles(ok: bool, applied: bool)
    | Restarted
    | Rebind
    | Crash

  /** Where the loop and the node stand; all up to `done` was processed. */
  datatype Standing<R> = Standing(cursor: nat, filter: nat, phase: Phase<R>, nextFrom: Option<nat>,
                                  prefetch: Option<Fetch>, ackWant: Option<nat>, ackInFlight: Option<nat>,
                                  ackFailed: bool, done: nat)

  ghost predicate Sound<R>(log: seq<Record<R>>, matches: (nat, R) -> bool, s: Span<R>) {
    s.handled == Select(log, r => matches(s.filter, r), Max(s.from, s.lost + 1), s.upto + 1)
  }

  ghost predicate Within<R>(s: Span<R>, offset: int) { s.from <= offset <= s.upto }

  /** Every offset from 1 to `done` lies in a span. */
  ghost predicate Cover<R>(spans: seq<Span<R>>, done: int) {
    forall o {:trigger InSome(spans, o)} :: 1 <= o <= done ==> InSome(spans, o)
  }

  ghost predicate InSome<R>(spans: seq<Span<R>>, o: int) {
    exists i :: 0 <= i < |spans| && Within(spans[i], o)
  }

  /** A span that begins within or right behind what is covered extends it. */
  lemma CoverGrows<R>(spans: seq<Span<R>>, done: int, s: Span<R>)
    requires Cover(spans, done) && s.from <= done + 1
    ensures Cover(spans + [s], Max(done, s.upto))
  {
    var all := spans + [s];
    forall o | 1 <= o <= Max(done, s.upto)
      ensures InSome(all, o)
    {
      if o <= done {
        assert InSome(spans, o);
        var i :| 0 <= i < |spans| && Within(spans[i], o);
        assert Within(all[i], o);
      } else {
        assert Within(all[|spans|], o);
      }
    }
  }

  class Ingest<R(==)> {
    /** Everything the stream will ever hold, and what each filter matches. */
    const log: seq<Record<R>>
    const matches: (nat, R) -> bool

    // At the node.
    var cursor: nat

    // The loop's own fields.
    var filter: nat
    var phase: Phase<R>
    var readAhead: Option<bool>
    var nextFrom: Option<nat>
    var prefetch: Option<Fetch>
    var behind: bool
    var ackWant: Option<nat>
    var ackInFlight: Option<nat>
    var ackFailed: bool

    ghost var done: nat
    ghost var spans: seq<Span<R>>

    constructor (log: seq<Record<R>>, matches: (nat, R) -> bool)
      requires IsLog(log)
      ensures Safe() && this.log == log && this.matches == matches && cursor == 0 && phase.Idle?
    {
      this.log, this.matches := log, matches;
      cursor, filter, phase, readAhead, nextFrom, prefetch, behind := 0, 0, Idle, None, None, None, false;
      ackWant, ackInFlight, ackFailed := None, None, false;
      done, spans := 0, [];
    }

    /** An offset from which a read passes nothing unprocessed. */
    ghost predicate Near(from: Option<nat>, limit: int) { from.Some? ==> from.value <= limit + 1 }

    ghost predicate Safe()
      reads this
    {
      && IsLog(log)
      && cursor <= done
      && (ackWant.Some? ==> ackWant.value <= done)
      && (ackInFlight.Some? ==> ackInFlight.value <= done)
      && (ackWant.Some? ==> ackInFlight.Some? && !ackFailed)
      && Cover(spans, done)
      && (forall i :: 0 <= i < |spans| ==> Sound(log, matches, spans[i]))
      && match phase
         case Idle => Near(nextFrom, done) && (prefetch.Some? ==> Near(prefetch.value.from, done))
         case Reading(fetch) => prefetch.None? && Near(fetch.from, done) && Near(nextFrom, done)
         case Processing(f, from, page) =>
           && from <= done + 1
           && IsPage(log, r => matches(f, r), from, page)
           && page.AckOffset().Some?
           && Near(nextFrom, Max(done, page.AckOffset().value))
           && (prefetch.Some? ==> Near(prefetch.value.from, Max(done, page.AckOffset().value)))
         case Acking(offset) => offset <= done && Near(nextFrom, done) && prefetch.None?
         case Restarting(after) => prefetch.None? && (after.AckTo? ==> after.offset <= done)
    }

    /** No record at or below the cursor was passed unprocessed: it lies in a
        range that was read under some filter, and if that filter matches it
        and the node still had it, its handlers ran. */
    ghost predicate NothingSkipped()
      reads this
    {
      forall k :: 0 <= k < |log| && log[k].offset <= cursor ==> Accounted(log[k])
    }

    ghost predicate Accounted(r: Record<R>)
      reads this
    {
      exists i :: 0 <= i < |spans| && Within(spans[i], r.offset)
        && (r.offset <= spans[i].lost || !matches(spans[i].filter, r.body) || r in spans[i].handled)
    }

    lemma SafeSkipsNothing()
      requires Safe()
      ensures NothingSkipped()
    {
      forall k | 0 <= k < |log| && log[k].offset <= cursor
        ensures Accounted(log[k])
      {
        var r := log[k];
        assert k > 0 ==> Earlier(log[0], log[k]);
        assert InSome(spans, r.offset);
        var i :| 0 <= i < |spans| && Within(spans[i], r.offset);
        var s := spans[i];
        SelectExactly(log, x => matches(s.filter, x), Max(s.from, s.lost + 1), s.upto + 1);
        assert Sound(log, matches, s);
        assert r.offset <= s.lost || !matches(s.filter, r.body) || r in s.handled;
      }
    }

    /** Record in the history that a page was processed up to `upto`. */
    ghost method Process(f: nat, from: nat, page: Page<R>, upto: int, handled: seq<Record<R>>)
      requires Safe() && from <= done + 1
      requires handled == Select(log, r => matches(f, r), Floor(page, from), upto + 1) && from <= Floor(page, from)
      modifies this`done, this`spans
      ensures done == Max(old(done), upto) && Cover(spans, done)
      ensures forall i :: 0 <= i < |spans| ==> Sound(log, matches, spans[i])
      ensures spans == old(spans) + [Span(f, from, upto, Floor(page, from) - 1, handled)]
    {
      var s := Span(f, from, upto, Floor(page, from) - 1, handled);
      CoverGrows(spans, done, s);
      spans := spans + [s];
      done := Max(done, upto);
    }

    // ------------------------------------------------------- one page

    /** The start of a step: after a refused acknowledgement, or when the page
        read ahead was read under a filter since replaced, reading restarts at
        the node's cursor; otherwise the page read ahead, or the next one, is
        awaited. */
    method BeginStep()
      requires Safe() && phase.Idle?
      modifies this`phase, this`prefetch
      ensures Safe() && prefetch.None?
      ensures phase ==
        if ackFailed then Restarting(Wait)
        else if old(prefetch).Some? && old(prefetch).value.filter != filter then Restarting(Read(filter))
        else if old(prefetch).Some? then Reading(old(prefetch).value)
        else Reading(Fetch(filter, nextFrom))
    {
      var ahead := prefetch;
      prefetch := None;
      if ackFailed {
        phase := Restarting(Wait);
      } else if ahead.Some? && ahead.value.filter != filter {
        phase := Restarting(Read(filter));
      } else if ahead.Some? {
        phase := Reading(ahead.value);
      } else {
        phase := Reading(Fetch(filter, nextFrom));
      }
    }

    /** What the node may answer to `fetch`: a page from the cursor it held
        when it read, or from the offset asked for when that lies ahead. A
        node that does not read ahead ignores that offset. */
    predicate Answers(cursor: nat, fetch: Fetch, page: Page<R>, from: nat) {
      && IsPage(log, r => matches(fetch.filter, r), from, page)
      && (if page.start.Some?
          then (fetch.from.Some? ==> fetch.from.value <= from) && from <= Max(cursor + 1, fetch.from.GetOr(1))
          else from <= cursor + 1)
    }

    /** A page arrived. An empty one that moved nothing ends the step; behind
        any other one the next is read ahead, where the node supports it. */
    method PageArrives(page: Page<R>, from: nat)
      requires Safe() && phase.Reading? && Answers(cursor, phase.fetch, page, from)
      modifies this`phase, this`prefetch, this`readAhead, this`nextFrom, this`behind
      ensures Safe()
      ensures readAhead == Some(page.start.Some?)
      ensures nextFrom == if page.start.Some? then Some(page.next) else old(nextFrom)
      ensures behind == page.AckOffset().Some?
      ensures phase == if behind then Processing(old(phase.fetch.filter), from, page) else Idle
      ensures prefetch ==
        if behind && page.start.Some? then Some(Fetch(old(phase.fetch.filter), Some(page.next))) else None
    {
      var f := phase.fetch.filter;
      AckCovers(log, r => matches(f, r), from, page);
      if page.start.None? {
        readAhead := Some(false);
      } else {
        readAhead := Some(true);
        nextFrom := Some(page.next);
      }
      if page.AckOffset().None? {
        behind, phase := false, Idle;
        return;
      }
      behind := true;
      if page.start.Some? { prefetch := Some(Fetch(f, Some(page.next))); }
      phase := Processing(f, from, page);
    }

    /** Every handler of the page returned or had its rejection recorded: the
        page is acknowledged, in the background on a node that reads ahead. */
    method PageProcessed()
      requires Safe() && phase.Processing?
      modifies this`phase, this`ackWant, this`ackInFlight, this`prefetch, this`done, this`spans
      ensures Safe()
      ensures done == Max(old(done), old(phase.page.AckOffset().value))
      ensures old(phase.page.start.Some?) ==> phase.Idle? && prefetch == old(prefetch)
      ensures old(phase.page.start.Some?) ==> Queued(old(phase.page.AckOffset().value), old(ackWant), old(ackInFlight))
      ensures old(phase.page.start.None?) ==>
        phase == Acking(old(phase.page.AckOffset().value)) && ackWant == old(ackWant) && ackInFlight == old(ackInFlight)
    {
      var f, from, page := phase.filter, phase.from, phase.page;
      var upto := page.AckOffset().value;
      AckCovers(log, r => matches(f, r), from, page);
      Process(f, from, page, upto, page.records);
      if page.start.Some? {
        phase := Idle;
        QueueAck(upto);
      } else {
        prefetch := None;
        phase := Acking(upto);
      }
    }

    /** The acknowledgement of `offset` is wanted, in flight, or left to the
        restart that a refused one has asked for. */
    ghost predicate Queued(offset: nat, want: Option<nat>, inFlight: Option<nat>)
      reads this
    {
      if ackFailed then ackWant == want && ackInFlight == inFlight
      else if inFlight.Some? then ackWant == Some(offset) && ackInFlight == inFlight
      else ackWant == None && ackInFlight == Some(offset)
    }

    /** Acknowledgements are cumulative: while one is in flight only the
        newest wanted one is kept, and none while a refused one is pending. */
    method QueueAck(offset: nat)
      requires Safe() && phase.Idle? && offset <= done
      modifies this`ackWant, this`ackInFlight
      ensures Safe() && Queued(offset, old(ackWant), old(ackInFlight))
    {
      if ackFailed { return; }
      if ackInFlight.Some? {
        ackWant := Some(offset);
      } else {
        ackWant, ackInFlight := None, Some(offset);
      }
    }

    /** A handler failed: the records before `record` were processed, reading
        restarts, and the cursor is moved to right before it. */
    method HandlerFails(i: nat)
      requires Safe() && phase.Processing? && i < |phase.page.records|
      modifies this`phase, this`prefetch, this`done, this`spans
      ensures Safe() && prefetch.None?
      ensures var at := old(phase.page.records[i].offset);
        at > 0 && phase == Restarting(if at > 1 then AckTo(at - 1) else Wait) && done == Max(old(done), at - 1)
    {
      var f, from, page := phase.filter, phase.from, phase.page;
      var at := page.records[i].offset;
      SelectBefore(log, r => matches(f, r), Floor(page, from), page.next, i);
      Process(f, from, page, at - 1, page.records[..i]);
      prefetch := None;
      phase := Restarting(if at > 1 then AckTo(at - 1) else Wait);
    }

    /** A failed read, or a gap the loop may not go past: nothing was processed. */
    method StepFails()
      requires Safe() && (phase.Reading? || phase.Processing?)
      modifies this`phase, this`prefetch
      ensures Safe() && prefetch.None? && phase == Restarting(Wait)
    {
      prefetch := None;
      phase := Restarting(Wait);
    }

    // ------------------------------------------------ acknowledgements

    /** The acknowledgement in flight ended. `applied` says whether the node
        took it, which it may have done although the reply was lost. */
    method AckSettles(ok: bool, applied: bool)
      requires Safe() && ackInFlight.Some? && (ok ==> applied)
      modifies this`cursor, this`ackWant, this`ackInFlight, this`ackFailed
      ensures Safe()
      ensures cursor == if applied then Max(old(cursor), old(ackInFlight).value) else old(cursor)
      ensures ok ==> ackInFlight == old(ackWant) && ackFailed == old(ackFailed)
      ensures !ok ==> ackInFlight.None? && ackFailed
      ensures ackWant.None?
    {
      if applied && ackInFlight.value > cursor { cursor := ackInFlight.value; }
      if ok {
        ackInFlight, ackWant := ackWant, None;
      } else {
        ackFailed, ackWant, ackInFlight := true, None, None;
      }
    }

    /** The loop's own acknowledgement ended: after a page on a node that does
        not read ahead, or up to before a failed record. */
    method SyncAckSettles(ok: bool, applied: bool)
      requires Safe() && phase.Acking? && (ok ==> applied)
      modifies this`cursor, this`phase
      ensures Safe()
      ensures cursor == if applied then Max(old(cursor), old(phase.offset)) else old(cursor)
      ensures phase == if ok then Idle else Restarting(Wait)
    {
      if applied && phase.offset > cursor { cursor := phase.offset; }
      phase := if ok then Idle else Restarting(Wait);
    }

    /** A restart completes once no acknowledgement is in flight: the next
        read starts at the node's cursor. */
    method Restarted()
      requires Safe() && phase.Restarting? && ackInFlight.None?
      modifies this`phase, this`nextFrom, this`ackFailed
      ensures Safe() && nextFrom.None? && !ackFailed
      ensures phase == match old(phase.after)
        case Wait => Idle
        case Read(f) => Reading(Fetch(f, None))
        case AckTo(offset) => Acking(offset)
    {
      nextFrom, ackFailed := None, false;
      phase := match phase.after
        case Wait => Idle
        case Read(f) => Reading(Fetch(f, None))
        case AckTo(offset) => Acking(offset);
    }

    // ------------------------------------------------------- the rest

    /** The filter is swapped, mid-run: the cursor keeps its position. */
    method Rebind()
      requires Safe()
      modifies this`filter
      ensures Safe() && filter == old(filter) + 1
    {
      filter := filter + 1;
    }

    /** A crash and a restart: only the node's cursor is left. */
    method Crash()
      requires Safe()
      modifies this`phase, this`readAhead, this`nextFrom, this`prefetch, this`behind
      modifies this`ackWant, this`ackInFlight, this`ackFailed
      ensures Safe() && phase.Idle? && nextFrom.None? && prefetch.None?
      ensures ackWant.None? && ackInFlight.None? && !ackFailed
    {
      phase, readAhead, nextFrom, prefetch, behind := Idle, None, None, None, false;
      ackWant, ackInFlight, ackFailed := None, None, false;
    }

    ghost function Now(): Standing<R>
      reads this
    {
      Standing(cursor, filter, phase, nextFrom, prefetch, ackWant, ackInFlight, ackFailed, done)
    }

    /** What a step does when it is possible; otherwise it does nothing. */
    ghost predicate Did(a: Standing<R>, step: Step<R>, b: Standing<R>) {
      match step
      case BeginStep =>
        if !a.phase.Idle? then b == a
        else b == a.(prefetch := None, phase :=
          if a.ackFailed then Restarting(Wait)
          else if a.prefetch.Some? && a.prefetch.value.filter != a.filter then Restarting(Read(a.filter))
          else Reading(a.prefetch.GetOr(Fetch(a.filter, a.nextFrom))))
      case PageArrives(page, from) =>
        if !(a.phase.Reading? && Answers(a.cursor, a.phase.fetch, page, from)) then b == a
        else
          var moved := page.AckOffset().Some?;
          var next := if page.start.Some? then Some(page.next) else a.nextFrom;
          b == a.(nextFrom := next,
                  phase := if moved then Processing(a.phase.fetch.filter, from, page) else Idle,
                  prefetch := if moved && page.start.Some? then Some(Fetch(a.phase.fetch.filter, next)) else None)
      case FetchFails => b == if a.phase.Reading? then a.(phase := Restarting(Wait), prefetch := None) else a
      case GapRefused => b == if a.phase.Processing? then a.(phase := Restarting(Wait), prefetch := None) else a
      case PageProcessed =>
        if !(a.phase.Processing? && a.phase.page.AckOffset().Some? && a.phase.page.AckOffset().value >= 0) then b == a
        else
          var upto: nat := a.phase.page.AckOffset().value;
          var c := a.(done := Max(a.done, upto));
          b == if a.phase.page.start.None? then c.(phase := Acking(upto), prefetch := None)
               else if a.ackFailed then c.(phase := Idle)
               else if a.ackInFlight.Some? then c.(phase := Idle, ackWant := Some(upto))
               else c.(phase := Idle, ackWant := None, ackInFlight := Some(upto))
      case HandlerFails(k) =>
        if !(a.phase.Processing? && k < |a.phase.page.records| && a.phase.page.records[k].offset > 0) then b == a
        else
          var before := a.phase.page.records[k].offset - 1;
          b == a.(done := Max(a.done, before), prefetch := None,
                  phase := Restarting(if before > 0 then AckTo(before) else Wait))
      case AckSettles(ok, applied) =>
        if a.ackInFlight.None? then b == a
        else
          var c := if applied then a.(cursor := Max(a.cursor, a.ackInFlight.value)) else a;
          b == if ok && applied then c.(ackInFlight := a.ackWant, ackWant := None)
               else c.(ackFailed := true, ackWant := None, ackInFlight := None)
      case SyncAckSettles(ok, applied) =>
        if !a.phase.Acking? then b == a
        else b == a.(cursor := if applied then Max(a.cursor, a.phase.offset) else a.cursor,
                     phase := if ok && applied then Idle else Restarting(Wait))
      case Restarted =>
        if !(a.phase.Restarting? && a.ackInFlight.None?) then b == a
        else b == a.(nextFrom := None, ackFailed := false,
                     phase := match a.phase.after
                              case Wait => Idle
                              case Read(f) => Reading(Fetch(f, None))
                              case AckTo(offset) => Acking(offset))
      case Rebind => b == a.(filter := a.filter + 1)
      case Crash =>
        b == a.(phase := Idle, nextFrom := None, prefetch := None, ackWant := None, ackInFlight := None,
                ackFailed := false)
    }

    /** A read begins, is answered, or fails. */
    method TakeRead(step: Step<R>)
      requires Safe() && (step.BeginStep? || step.PageArrives? || step.FetchFails?)
      modifies this
      ensures Safe() && Did(old(Now()), step, Now())
    {
      match step
      case BeginStep => if phase.Idle? { BeginStep(); }
      case PageArrives(page, from) =>
        if phase.Reading? && Answers(cursor, phase.fetch, page, from) { PageArrives(page, from); }
      case FetchFails => if phase.Reading? { StepFails(); }
      case _ =>
    }

    /** A page was processed, or not. */
    method TakePage(step: Step<R>)
      requires Safe() && (step.PageProcessed? || step.GapRefused? || step.HandlerFails?)
      modifies this
      ensures Safe() && Did(old(Now()), step, Now())
    {
      match step
      case PageProcessed => if phase.Processing? { PageProcessed(); }
      case GapRefused => if phase.Processing? { StepFails(); }
      case HandlerFails(record) => if phase.Processing? && record < |phase.page.records| { HandlerFails(record); }
      case _ =>
    }

    /** An acknowledgement ends, or a restart. */
    method TakeAck(step: Step<R>)
      requires Safe() && (step.AckSettles? || step.SyncAckSettles? || step.Restarted?)
      modifies this
      ensures Safe() && Did(old(Now()), step, Now())
    {
      match step
      case AckSettles(ok, applied) => if ackInFlight.Some? { AckSettles(ok && applied, applied); }
      case SyncAckSettles(ok, applied) => if phase.Acking? { SyncAckSettles(ok && applied, applied); }
      case Restarted => if phase.Restarting? && ackInFlight.None? { Restarted(); }
      case _ =>
    }

    /** One step, if it is possible. */
    method Take(step: Step<R>)
      requires Safe()
      modifies this
      ensures Safe() && Did(old(Now()), step, Now())
    {
      if step.BeginStep? || step.PageArrives? || step.FetchFails? {
        TakeRead(step);
      } else if step.PageProcessed? || step.GapRefused? || step.HandlerFails? {
        TakePage(step);
      } else if step.Rebind? {
        Rebind();
      } else if step.Crash? {
        Crash();
      } else {
        TakeAck(step);
      }
    }

    /** Each of the first so many steps did what it is for. */
    ghost predicate IsPath(path: seq<Standing<R>>, schedule: seq<Step<R>>, n: nat) {
      && n <= |schedule| && |path| == n + 1
      && forall i :: 0 <= i < n ==> Did(path[i], schedule[i], path[i + 1])
    }

    /** Any schedule of all of these; `path` is where it led, step by step. */
    method Run(schedule: seq<Step<R>>) returns (ghost path: seq<Standing<R>>)
      requires Safe()
      modifies this
      ensures Safe() && NothingSkipped()
      ensures IsPath(path, schedule, |schedule|) && path[0] == old(Now()) && path[|schedule|] == Now()
    {
      path := [Now()];
      for i := 0 to |schedule|
        invariant Safe() && IsPath(path, schedule, i) && path[0] == old(Now()) && path[i] == Now()
      {
        Take(schedule[i]);
        path := path + [Now()];
      }
      SafeSkipsNothing();
    }
  }
}
