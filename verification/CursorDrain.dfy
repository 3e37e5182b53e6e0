/** A named cursor drained to a head captured before the drain, through a
    handler: `Stream.drain` as `consume` runs it. */
module CursorDrain {
  import opened Options
  import opened NodeStream

  /** What a handler does with a record, and whether a rejection is recorded. */
  datatype Fate = Returns | Rejects(recorded: bool) | Raises

  /** What an acknowledgement does: the node may take one whose reply is lost. */
  datatype Reply = Taken | Refused | ReplyLost

  /** How a drain ends. */
  datatype Ending<R> = Drained | Stopped | HandlerFailed(record: Record<R>) | Gapped | ReadFailed

  /** The surroundings of one drain: the answer to its n-th fetch (none when
      it fails) for a read from some offset, the fate of each record, the reply
      to its n-th acknowledgement, and whether `stop` is set at a record. */
  datatype Weather<!R> = Weather(fetch: (nat, nat) -> Option<Page<R>>, fate: R -> Fate, ack: nat -> Reply,
                                 stops: (nat, nat) -> bool)

  class Stream<R> {
    /** Everything the stream will ever hold, and what the cursor's filter keeps. */
    const log: seq<Record<R>>
    const keep: R -> bool
    /** Whether the node says where a page starts. */
    const reportsStart: bool

    /** The node's stored cursor: the last record acknowledged. */
    var cursor: nat
    /** The last record this object knows the cursor passed. */
    var acknowledged: nat

    /** Every record whose handler returned or whose rejection was recorded. */
    ghost var settled: set<Record<R>>

    constructor (log: seq<Record<R>>, keep: R -> bool, reportsStart: bool)
      requires IsLog(log)
      ensures Valid() && cursor == 0 && acknowledged == 0 && settled == {}
      ensures this.log == log && this.keep == keep && this.reportsStart == reportsStart
    {
      this.log, this.keep, this.reportsStart := log, keep, reportsStart;
      cursor, acknowledged, settled := 0, 0, {};
      new;
      SelectNothing(log, keep, 1, 1);
      assert log != [] ==> forall k :: 0 < k < |log| ==> Earlier(log[0], log[k]);
    }

    /** The cursor never passed a record that was not settled. What lies
        between the cursor and a later position this object believes in is
        nothing the filter keeps, unless the node lost acknowledged records. */
    ghost predicate Valid()
      reads this
    {
      && IsLog(log)
      && Passed(cursor)
      && (reportsStart || Select(log, keep, cursor + 1, acknowledged + 1) == [])
    }

    ghost predicate Passed(upto: nat)
      reads this
    {
      forall r :: r in log && r.offset <= upto && keep(r.body) ==> r in settled
    }

    ghost predicate Honest(weather: Weather<R>) {
      forall n, from :: from > 0 && weather.fetch(n, from).Some? ==>
        var page := weather.fetch(n, from).value;
        IsPage(log, keep, from, page) && (page.start.Some? <==> reportsStart)
    }

    /** Acknowledge `offset`, unless this object knows the cursor passed it. */
    method Acknowledge(offset: nat, reply: Reply) returns (ok: bool)
      requires Valid() && Passed(offset)
      modifies this`cursor, this`acknowledged
      ensures Valid()
      ensures offset <= old(acknowledged) ==> ok && cursor == old(cursor) && acknowledged == old(acknowledged)
      ensures offset > old(acknowledged) ==>
        && (ok <==> reply.Taken?)
        && cursor == (if reply.Refused? then old(cursor) else Max(old(cursor), offset))
        && acknowledged == (if ok then offset else old(acknowledged))
    {
      if offset <= acknowledged { return true; }
      if !reply.Refused? && offset > cursor {
        SelectNothing(log, keep, offset + 1, acknowledged + 1);
        cursor := offset;
      }
      ok := reply.Taken?;
      if ok {
        SelectNothing(log, keep, cursor + 1, offset + 1);
        acknowledged := offset;
      }
    }

    /** The node loses acknowledged records: its cursor goes back. */
    method Lose(c: nat)
      requires Valid() && c <= cursor && reportsStart
      modifies this`cursor
      ensures Valid() && cursor == c
    {
      cursor := c;
    }

    /** Learn the stored position from a page read from the cursor: one that
        starts lower means the node lost acknowledged records. */
    method Observe(page: Page<R>)
      requires Valid() && IsPage(log, keep, cursor + 1, page) && (page.start.Some? <==> reportsStart)
      modifies this`acknowledged
      ensures Valid()
      ensures acknowledged == if page.start.Some? then Min(cursor, old(acknowledged)) else old(acknowledged)
    {
      if page.start.Some? && page.start.value - 1 < acknowledged {
        acknowledged := page.start.value - 1;
      }
    }

    /** The drain is never stopped, and every handler returns or has its
        rejection recorded. */
    ghost predicate Handles(weather: Weather<R>) {
      && (forall n, k :: !weather.stops(n, k))
      && forall r :: r in log && keep(r.body) ==> Done(weather.fate(r.body))
    }

    /** The handler returned, or its rejection was recorded. */
    static ghost predicate Done(fate: Fate) {
      fate == Returns || fate == Rejects(true)
    }

    /** The node answers every read with a page without a gap that moves on or
        finds the head, and takes every acknowledgement. */
    ghost predicate Answers(head: nat, weather: Weather<R>) {
      forall n: nat, from: nat {:trigger weather.fetch(n, from)} :: from > 0 ==>
        && weather.fetch(n, from).Some? && weather.ack(n).Taken? && weather.fetch(n, from).value.gap.None?
        && (weather.fetch(n, from).value.AckOffset().Some? || weather.fetch(n, from).value.next > head)
    }

    lemma InLog(page: Page<R>)
      requires IsLog(log) && IsPage(log, keep, cursor + 1, page)
      ensures forall i :: 0 <= i < |page.records| ==> page.records[i] in log && keep(page.records[i].body)
    {
      SelectExactly(log, keep, Floor(page, cursor + 1), page.next);
      forall i | 0 <= i < |page.records| ensures page.records[i] in log && keep(page.records[i].body) {
        assert Kept(log, keep, Floor(page, cursor + 1), page.next, page.records[i]);
      }
    }

    /** Hand out a page's records in order, until one fails or `stop` is set. */
    method HandlePage(page: Page<R>, n: nat, weather: Weather<R>) returns (k: nat, end: Ending<R>)
      requires Valid() && IsPage(log, keep, cursor + 1, page)
      modifies this`settled
      ensures Valid() && old(settled) <= settled
      ensures k <= |page.records| && forall i :: 0 <= i < k ==> page.records[i] in settled
      ensures end.Drained? || end.Stopped? || end.HandlerFailed?
      ensures end.Drained? ==> k == |page.records|
      ensures end.HandlerFailed? ==>
        k < |page.records| && end.record == page.records[k] && !Done(weather.fate(end.record.body))
      ensures forall i :: 0 <= i < k ==> Done(weather.fate(page.records[i].body))
      ensures (forall i: nat :: i < k ==> !weather.stops(n, i)) && (end.Stopped? ==> weather.stops(n, k))
      ensures end.Drained? ==> !weather.stops(n, k)
      ensures Handles(weather) ==> end.Drained?
    {
      InLog(page);
      k := 0;
      while k < |page.records|
        invariant 0 <= k <= |page.records| && Valid() && old(settled) <= settled
        invariant forall i :: 0 <= i < k ==>
          page.records[i] in settled && Done(weather.fate(page.records[i].body))
        invariant forall i: nat :: i < k ==> !weather.stops(n, i)
      {
        if weather.stops(n, k) { return k, Stopped; }
        if Unsettled(weather.fate(page.records[k].body)) { return k, HandlerFailed(page.records[k]); }
        settled := settled + {page.records[k]};
        k := k + 1;
      }
      end := if weather.stops(n, k) then Stopped else Drained;
    }

    /** The fates after which a record is handed out again. */
    static predicate Unsettled(fate: Fate) { fate.Raises? || (fate.Rejects? && !fate.recorded) }

    /** Once a page's records up to `k` are settled, so is all the filter
        keeps up to there. */
    lemma PageSettles(c0: nat, page: Page<R>, k: nat, upto: int)
      requires Valid() && IsPage(log, keep, cursor + 1, page) && page.gap.None? && k <= |page.records|
      requires forall i :: 0 <= i < k ==> page.records[i] in settled
      requires page.records[..k] == Select(log, keep, cursor + 1, upto + 1) && c0 <= cursor <= upto
      ensures Passed(upto)
      ensures Select(log, keep, c0 + 1, cursor + 1) + page.records[..k] == Select(log, keep, c0 + 1, upto + 1)
    {
      SelectJoins(log, keep, c0 + 1, cursor + 1, upto + 1);
      SelectExactly(log, keep, cursor + 1, upto + 1);
      forall r | r in log && r.offset <= upto && keep(r.body)
        ensures r in settled
      {
        if r.offset > cursor { assert r in page.records[..k]; }
      }
    }

    lemma PartSettles(before: seq<Record<R>>, c0: nat, page: Page<R>, k: nat)
      requires Valid() && IsPage(log, keep, cursor + 1, page) && page.gap.None? && Upto(before, c0, cursor)
      requires k < |page.records| && forall i :: 0 <= i < k ==> page.records[i] in settled
      ensures var at := page.records[k].offset;
        && cursor < at && Passed(at - 1) && Upto(before + page.records[..k], c0, at - 1)
        && page.records[k] in log && keep(page.records[k].body)
    {
      SelectBefore(log, keep, cursor + 1, page.next, k);
      SelectExactly(log, keep, cursor + 1, page.next);
      assert Kept(log, keep, cursor + 1, page.next, page.records[k]);
      PageSettles(c0, page, k, page.records[k].offset - 1);
    }

    lemma WholeSettles(before: seq<Record<R>>, c0: nat, page: Page<R>)
      requires Valid() && IsPage(log, keep, cursor + 1, page) && page.gap.None? && Upto(before, c0, cursor)
      requires forall i :: 0 <= i < |page.records| ==> page.records[i] in settled
      ensures var upto := page.AckOffset().GetOr(cursor);
        && upto >= cursor && Passed(upto) && Upto(before + page.records, c0, upto)
      ensures page.AckOffset().Some? ==> page.AckOffset().value > cursor
      ensures (page.start.Some? <==> reportsStart) && (reportsStart ==> acknowledged <= cursor) ==>
        page.AckOffset().Some? ==> page.AckOffset().value > acknowledged
    {
      AckCovers(log, keep, cursor + 1, page);
      assert page.records[..|page.records|] == page.records;
      if page.AckOffset().Some? {
        PageSettles(c0, page, |page.records|, page.AckOffset().value);
        if !reportsStart && page.start.None? { BeyondAcknowledged(page); }
      }
    }

    /** On a node that does not say where a page starts, a page with records
        ends behind what this object believes in. */
    lemma BeyondAcknowledged(page: Page<R>)
      requires Valid() && !reportsStart && IsPage(log, keep, cursor + 1, page) && page.gap.None? && page.start.None?
      ensures page.AckOffset().Some? ==> page.AckOffset().value > acknowledged
    {
      if page.records != [] {
        var last := page.records[|page.records| - 1];
        SelectExactly(log, keep, cursor + 1, page.next);
        assert Kept(log, keep, cursor + 1, page.next, last);
        SelectExactly(log, keep, cursor + 1, acknowledged + 1);
        assert last !in Select(log, keep, cursor + 1, acknowledged + 1);
      }
    }

    /** Nothing lies between the cursor and where an empty page found the head. */
    lemma HeadReached(c0: nat, page: Page<R>)
      requires Valid() && IsPage(log, keep, cursor + 1, page) && page.AckOffset().None? && c0 <= cursor
      requires (page.start.Some? <==> reportsStart) && (reportsStart ==> acknowledged <= cursor)
      ensures var upto := Max(acknowledged, page.next - 1);
        && upto >= cursor && Select(log, keep, cursor + 1, upto + 1) == []
        && Select(log, keep, c0 + 1, cursor + 1) == Select(log, keep, c0 + 1, upto + 1)
    {
      AckCovers(log, keep, cursor + 1, page);
      var upto := Max(acknowledged, page.next - 1);
      SelectNothing(log, keep, cursor + 1, cursor + 1);
      SelectJoins(log, keep, c0 + 1, cursor + 1, upto + 1);
    }

    /** `handled` is what the filter keeps behind `c0`, up to `upto`. */
    ghost predicate Upto(handled: seq<Record<R>>, c0: nat, upto: nat) {
      c0 <= upto && handled == Select(log, keep, c0 + 1, upto + 1)
    }

    /** Only records a handler returned for, or whose rejection was recorded. */
    ghost predicate Settled(handled: seq<Record<R>>, weather: Weather<R>)
      reads this
    {
      forall i :: 0 <= i < |handled| ==> handled[i] in settled && Done(weather.fate(handled[i].body))
    }

    /** The records of a page, behind those of the pages before. */
    method HandOut(page: Page<R>, n: nat, weather: Weather<R>, before: seq<Record<R>>, ghost c0: nat)
      returns (handled: seq<Record<R>>, end: Ending<R>)
      requires Valid() && IsPage(log, keep, cursor + 1, page) && page.gap.None? && (page.start.Some? <==> reportsStart)
      requires (reportsStart ==> acknowledged <= cursor) && Upto(before, c0, cursor) && Settled(before, weather)
      modifies this`settled
      ensures Valid() && Settled(handled, weather)
      ensures end.Drained? || end.Stopped? || end.HandlerFailed?
      ensures end.Drained? ==> var upto := page.AckOffset().GetOr(cursor);
        && upto >= cursor && Passed(upto) && Upto(handled, c0, upto)
        && (page.AckOffset().Some? ==> upto > cursor && upto > acknowledged)
      ensures end.HandlerFailed? ==> var r := end.record;
        && r in log && keep(r.body) && cursor < r.offset && Passed(r.offset - 1) && Upto(handled, c0, r.offset - 1)
        && !Done(weather.fate(r.body))
      ensures end.Stopped? ==> !(forall k :: !weather.stops(n, k)) && exists upto: nat :: Upto(handled, c0, upto)
      ensures Handles(weather) ==> end.Drained?
    {
      var k;
      k, end := HandlePage(page, n, weather);
      handled := before + page.records[..k];
      if k < |page.records| {
        PartSettles(before, c0, page, k);
      } else {
        assert page.records[..k] == page.records;
        WholeSettles(before, c0, page);
      }
    }

    /** An empty page: nothing follows the cursor, which stands at the head. */
    method AtHead(page: Page<R>, head: nat, ghost c0: nat) returns (end: Ending<R>)
      requires Valid() && IsPage(log, keep, cursor + 1, page) && page.AckOffset().None? && c0 <= cursor
      requires (page.start.Some? <==> reportsStart) && (reportsStart ==> acknowledged <= cursor)
      modifies this`acknowledged
      ensures Valid()
      ensures end == if page.next <= head then ReadFailed else Drained
      ensures end.Drained? ==> acknowledged >= head && acknowledged >= cursor
      ensures end.Drained? ==> Select(log, keep, c0 + 1, cursor + 1) == Select(log, keep, c0 + 1, acknowledged + 1)
    {
      if page.next <= head { return ReadFailed; }
      HeadReached(c0, page);
      if page.next - 1 > acknowledged { acknowledged := page.next - 1; }
      return Drained;
    }

    /** One page of a drain: none when the drain goes on behind it. */
    method DrainPage(page: Page<R>, n: nat, head: nat, weather: Weather<R>, before: seq<Record<R>>, ghost c0: nat)
      returns (handled: seq<Record<R>>, end: Option<Ending<R>>)
      requires Valid() && IsPage(log, keep, cursor + 1, page) && page.gap.None? && (page.start.Some? <==> reportsStart)
      requires (reportsStart ==> acknowledged <= cursor) && Upto(before, c0, cursor) && Settled(before, weather)
      modifies this
      ensures Valid() && cursor >= old(cursor) && Settled(handled, weather)
      ensures exists upto: nat :: Upto(handled, c0, upto)
      ensures end == Some(Stopped) ==> !(forall k :: !weather.stops(n, k))
      ensures end.None? ==>
        old(cursor) < cursor < head && Upto(handled, c0, cursor) && (reportsStart ==> acknowledged <= cursor)
      ensures end == Some(Drained) ==> acknowledged >= head && Upto(handled, c0, acknowledged)
      ensures end.Some? && end.value.HandlerFailed? ==>
        var r := end.value.record;
        && r in log && keep(r.body) && cursor < r.offset && Upto(handled, c0, r.offset - 1)
        && !Done(weather.fate(r.body)) && (weather.ack(n).Taken? ==> acknowledged >= r.offset - 1)
      ensures Handles(weather) && (if page.AckOffset().Some? then weather.ack(n).Taken? else page.next > head) ==>
        end.None? || end == Some(Drained)
    {
      var ended;
      handled, ended := HandOut(page, n, weather, before, c0);
      if ended.Stopped? { return handled, Some(Stopped); }
      if ended.HandlerFailed? {
        assert Upto(handled, c0, ended.record.offset - 1);
        if ended.record.offset > 1 {
          var _ := Acknowledge(ended.record.offset - 1, weather.ack(n));
        }
        return handled, Some(ended);
      }
      if page.AckOffset().None? {
        ended := AtHead(page, head, c0);
        assert Upto(handled, c0, cursor);
        assert ended.Drained? ==> Upto(handled, c0, acknowledged);
        return handled, Some(ended);
      }
      var offset := page.AckOffset().value;
      assert Upto(handled, c0, offset);
      var ok := Acknowledge(offset, weather.ack(n));
      if !ok { return handled, Some(ReadFailed); }
      return handled, if offset >= head then Some(Drained) else None;
    }

    /** Drain to `head`: the records the filter keeps, from the cursor on, go
        through the handler in stream order; a page is acknowledged once it is
        settled. It ends, however long the log is: `handled` are the settled
        records, and all of them up to a position at or past the head when it
        ran to its end, as it does where the node answers and every record is
        settled. */
    method Drain(head: nat, weather: Weather<R>) returns (handled: seq<Record<R>>, end: Ending<R>)
      requires Valid() && Honest(weather)
      modifies this
      ensures Valid() && cursor >= old(cursor) && Settled(handled, weather)
      ensures exists upto: nat :: Upto(handled, old(cursor), upto)
      ensures end.Drained? ==> acknowledged >= head && Upto(handled, old(cursor), acknowledged)
      ensures end.HandlerFailed? ==>
        && end.record in log && keep(end.record.body) && cursor < end.record.offset
        && Upto(handled, old(cursor), end.record.offset - 1) && !Done(weather.fate(end.record.body))
        && ((forall n :: weather.ack(n).Taken?) ==> acknowledged >= end.record.offset - 1)
      ensures end.Stopped? ==> !(forall n, k :: !weather.stops(n, k))
      ensures Answers(head, weather) && Handles(weather) ==> end.Drained?
    {
      handled := [];
      SelectNothing(log, keep, cursor + 1, cursor + 1);
      assert Upto(handled, cursor, cursor);
      var n: nat := 0;
      while true
        invariant Valid() && cursor >= old(cursor) && Settled(handled, weather) && Upto(handled, old(cursor), cursor)
        invariant n > 0 ==> cursor < head && (reportsStart ==> acknowledged <= cursor)
        decreases head - cursor, if n == 0 then 1 else 0
      {
        var answer := weather.fetch(n, cursor + 1);
        if answer.None? { return handled, ReadFailed; }
        if n == 0 { Observe(answer.value); }
        if answer.value.gap.Some? { return handled, Gapped; }
        var more, ended := DrainPage(answer.value, n, head, weather, handled, old(cursor));
        handled := more;
        if ended.Some? { return handled, ended.value; }
        n := n + 1;
      }
    }
  }
}
