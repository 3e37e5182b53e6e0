/** A node's stream as its readers see it.

    The log of a stream is given once, as everything it will ever hold: what a
    page shows is always a part of it, so growth while a reader works, and a
    producer that never stops, are covered by quantifying over the log and
    over how far each page and each head reaches into it. */
module NodeStream {
  import opened Options

  datatype Record<R> = Record(offset: nat, body: R)

  /** A pruned range riding on a page: everything up to `upto` is gone. */
  datatype Gap = Gap(from: nat, upto: nat)

  datatype Page<R> = Page(records: seq<Record<R>>, next: nat, gap: Option<Gap>, start: Option<nat>) {

    /** What to acknowledge once the page's records are processed. */
    function AckOffset(): Option<int> {
      if records != [] then Some(Max(records[|records| - 1].offset, next - 1))
      else if start.Some? && next > start.value then
        Some(if gap.None? then next - 1 else Max(gap.value.upto, next - 1))
      else if gap.Some? then Some(gap.value.upto)
      else None
    }
  }

  predicate Earlier<R>(a: Record<R>, b: Record<R>) { 0 < a.offset < b.offset }

  ghost predicate IsLog<R>(log: seq<Record<R>>) {
    && (log != [] ==> 0 < log[0].offset)
    && forall i, j {:trigger Earlier(log[i], log[j])} :: 0 <= i < j < |log| ==> Earlier(log[i], log[j])
  }

  /** The last offset the log holds. */
  function Head<R>(log: seq<Record<R>>): nat {
    if log == [] then 0 else log[|log| - 1].offset
  }

  /** The records a filter keeps with `lo <= offset < hi`, in order. */
  function Select<R>(log: seq<Record<R>>, keep: R -> bool, lo: int, hi: int): seq<Record<R>> {
    if log == [] then []
    else
      var last := log[|log| - 1];
      Select(log[..|log| - 1], keep, lo, hi)
      + (if lo <= last.offset < hi && keep(last.body) then [last] else [])
  }

  /** The first offset a page can hold records of. */
  function Floor<R>(page: Page<R>, from: nat): nat {
    if page.gap.Some? then page.gap.value.upto + 1 else from
  }

  /** The node's contract: `page` answers a read from offset `from`. It holds,
      in order, every record the filter keeps in the range it scanned; a node
      that reads ahead says where the range starts. */
  predicate IsPage<R(==)>(log: seq<Record<R>>, keep: R -> bool, from: nat, page: Page<R>) {
    && from > 0
    && (page.start.Some? ==> page.start.value == from)
    && from <= page.next <= Max(from, Head(log) + 1)
    && (page.gap.Some? ==> page.gap.value.from <= from <= page.gap.value.upto)
    && page.records == Select(log, keep, Floor(page, from), page.next)
  }

  ghost predicate Kept<R>(log: seq<Record<R>>, keep: R -> bool, lo: int, hi: int, r: Record<R>) {
    r in log && lo <= r.offset < hi && keep(r.body)
  }

  /** A selection holds exactly the kept records of its range, in order. */
  lemma {:induction false} SelectExactly<R>(log: seq<Record<R>>, keep: R -> bool, lo: int, hi: int)
    requires IsLog(log)
    ensures forall i :: 0 <= i < |Select(log, keep, lo, hi)| ==> Kept(log, keep, lo, hi, Select(log, keep, lo, hi)[i])
    ensures forall r :: r in log && lo <= r.offset < hi && keep(r.body) ==> r in Select(log, keep, lo, hi)
    ensures IsLog(Select(log, keep, lo, hi))
  {
    if log != [] {
      var front := log[..|log| - 1];
      FrontIsLog(log);
      SelectExactly(front, keep, lo, hi);
      var before, all := Select(front, keep, lo, hi), Select(log, keep, lo, hi);
      forall i, j | 0 <= i < j < |all| ensures Earlier(all[i], all[j]) {
        if j < |before| {
          assert Earlier(before[i], before[j]);
        } else {
          assert Kept(front, keep, lo, hi, before[i]);
          var k :| 0 <= k < |front| && front[k] == before[i];
          assert Earlier(log[k], log[|log| - 1]);
        }
      }
      if all != [] && before == [] && |log| > 1 { assert Earlier(log[0], log[|log| - 1]); }
    }
  }

  lemma FrontIsLog<R>(log: seq<Record<R>>)
    requires IsLog(log) && log != []
    ensures IsLog(log[..|log| - 1])
    ensures forall r :: r in log[..|log| - 1] ==> r.offset < log[|log| - 1].offset
  {
    forall i | 0 <= i < |log| - 1 ensures log[i].offset < log[|log| - 1].offset {
      assert Earlier(log[i], log[|log| - 1]);
    }
    var front := log[..|log| - 1];
    forall i, j | 0 <= i < j < |front| ensures Earlier(front[i], front[j]) { assert Earlier(log[i], log[j]); }
  }

  /** Two ranges that meet make one. */
  lemma {:induction false} SelectJoins<R>(log: seq<Record<R>>, keep: R -> bool, lo: int, mid: int, hi: int)
    requires IsLog(log) && lo <= mid <= hi
    ensures Select(log, keep, lo, hi) == Select(log, keep, lo, mid) + Select(log, keep, mid, hi)
  {
    if log != [] {
      var front, last := log[..|log| - 1], log[|log| - 1];
      FrontIsLog(log);
      SelectJoins(front, keep, lo, mid, hi);
      if mid <= last.offset {
        assert Select(log, keep, lo, mid) == Select(front, keep, lo, mid);
      } else {
        SelectAbove(front, keep, mid, hi);
      }
    }
  }

  /** Nothing of a log lies above its records. */
  lemma {:induction false} SelectAbove<R>(log: seq<Record<R>>, keep: R -> bool, lo: int, hi: int)
    requires forall r :: r in log ==> r.offset < lo
    ensures Select(log, keep, lo, hi) == []
  {
    if log != [] {
      assert log[|log| - 1] in log;
      SelectAbove(log[..|log| - 1], keep, lo, hi);
    }
  }

  /** Nothing lies in an empty range. */
  lemma {:induction false} SelectNothing<R>(log: seq<Record<R>>, keep: R -> bool, lo: int, hi: int)
    requires hi <= lo
    ensures Select(log, keep, lo, hi) == []
  {
    if log != [] { SelectNothing(log[..|log| - 1], keep, lo, hi); }
  }

  /** Acknowledging a page's offset passes no record the page's filter keeps
      and the page does not hold, always moves on from where the page was
      read, and there is no such offset only when nothing moved. */
  lemma AckCovers<R>(log: seq<Record<R>>, keep: R -> bool, from: nat, page: Page<R>)
    requires IsLog(log) && IsPage(log, keep, from, page)
    ensures page.AckOffset().Some? ==>
      && (page.start.Some? || page.records != [] ==> page.AckOffset().value + 1 >= page.next)
      && page.AckOffset().value >= Max(from, Floor(page, from)) - 1
      && page.records == Select(log, keep, Floor(page, from), page.AckOffset().value + 1)
    ensures page.AckOffset().Some? && (page.start.Some? || page.records != [] || page.gap.Some?) ==>
      page.AckOffset().value >= from
    ensures page.AckOffset().None? ==> page.records == [] && page.gap.None?
    ensures page.AckOffset().None? && page.start.Some? ==> page.next == from
    ensures page.AckOffset().Some? ==> page.AckOffset().value <= Max(Head(log), Floor(page, from) - 1)
  {
    SelectExactly(log, keep, Floor(page, from), page.next);
    if page.records != [] {
      var last := page.records[|page.records| - 1];
      assert Kept(log, keep, Floor(page, from), page.next, last);
    } else if page.AckOffset().Some? && page.gap.Some? && page.AckOffset().value == page.gap.value.upto {
      SelectNothing(log, keep, Floor(page, from), page.gap.value.upto + 1);
    }
  }

  /** The part of a selection before a record is the selection up to it. */
  lemma {:induction false} SelectBefore<R>(log: seq<Record<R>>, keep: R -> bool, lo: int, hi: int, i: nat)
    requires IsLog(log) && i < |Select(log, keep, lo, hi)|
    ensures var sel := Select(log, keep, lo, hi);
      lo <= sel[i].offset < hi && sel[..i] == Select(log, keep, lo, sel[i].offset)
  {
    var sel := Select(log, keep, lo, hi);
    SelectExactly(log, keep, lo, hi);
    assert Kept(log, keep, lo, hi, sel[i]);
    var at := sel[i].offset;
    SelectJoins(log, keep, lo, at, hi);
    var a, b := Select(log, keep, lo, at), Select(log, keep, at, hi);
    SelectExactly(log, keep, lo, at);
    SelectExactly(log, keep, at, hi);
    assert i < |a| ==> Kept(log, keep, lo, at, a[i]);
    assert |b| > 0 ==> b[0] == sel[|a|] && Kept(log, keep, at, hi, b[0]);
    forall k | 0 <= k < i ensures sel[k].offset < at { assert Earlier(sel[k], sel[i]); }
    assert sel[..i] == a;
  }
}
