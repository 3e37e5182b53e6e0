/** What the calls of checkpointed producers should amount to.

    A stream's records, sent through the dispatch table, give one sequence of
    `@on_metric` calls.  `World.At(p, n)` is the reference: producer `p` after
    its own accepted calls among the first `n`, each applied once, in order. */
module CallLog {
  import opened Options

  type Id = string
  type Key = string

  /** The method `key` of `producer`, called with the record at `offset`. */
  datatype Call = Call(producer: Id, key: Key, offset: nat)

  /** A producer's memory: its state and, per method, the last record handled. */
  datatype Producer<S> = Producer(state: S, handled: map<Key, nat>)

  datatype Handler = Handler(producer: Id, key: Key)

  /** A record as the dispatch table sees it. */
  datatype Record = Record(offset: nat, signal: Option<string>)

  /** The calls the handlers of one record make, in the table's order. */
  function CallsOf(offset: nat, handlers: seq<Handler>): (r: seq<Call>)
    ensures |r| == |handlers|
    ensures forall i :: 0 <= i < |r| ==> r[i] == Call(handlers[i].producer, handlers[i].key, offset)
  {
    seq(|handlers|, i requires 0 <= i < |handlers| => Call(handlers[i].producer, handlers[i].key, offset))
  }

  /** Every call a stream's records make: quiet records make none. */
  function Dispatched(records: seq<Record>, table: map<string, seq<Handler>>): seq<Call> {
    if records == [] then []
    else
      var last := records[|records| - 1];
      Dispatched(records[..|records| - 1], table)
      + (if last.signal.Some? && last.signal.value in table then CallsOf(last.offset, table[last.signal.value]) else [])
  }

  /** Offsets count from 1. */
  predicate Numbered(c: Call) { c.offset > 0 }

  /** Two calls in stream order, and not the same call. */
  predicate Before(a: Call, b: Call) { a.offset <= b.offset && a != b }

  ghost predicate InOrder(calls: seq<Call>) {
    forall i, j {:trigger Before(calls[i], calls[j])} :: 0 <= i < j < |calls| ==> Before(calls[i], calls[j])
  }

  /** A stream in offset order and a table that names no method twice for one
      signal give calls in offset order, none of them twice. */
  lemma {:induction false} DispatchedInOrder(records: seq<Record>, table: map<string, seq<Handler>>)
    requires forall i, j :: 0 <= i < j < |records| ==> records[i].offset < records[j].offset
    requires forall s :: s in table ==> forall i, j :: 0 <= i < j < |table[s]| ==> table[s][i] != table[s][j]
    ensures InOrder(Dispatched(records, table))
    ensures forall c :: c in Dispatched(records, table) ==> exists r :: r in records && r.offset == c.offset
  {
    if records != [] {
      var front, last := records[..|records| - 1], records[|records| - 1];
      DispatchedInOrder(front, table);
      var before := Dispatched(front, table);
      assert forall c :: c in before ==> c.offset < last.offset;
      var all, now := Dispatched(records, table), Dispatched(records, table)[|before|..];
      forall i, j | 0 <= i < j < |all| ensures Before(all[i], all[j]) {
        if j < |before| {
          assert Before(before[i], before[j]);
        } else if i < |before| {
          assert before[i] in before;
        } else {
          var handlers := table[last.signal.value];
          assert handlers[i - |before|] != handlers[j - |before|];
        }
      }
    }
  }

  /** The calls of a stream with what each of them does: `apply` is a handler
      that returns, `rejects` says which calls raise `Reject`. */
  datatype World<!S> = World(calls: seq<Call>, init: Id -> S, apply: (Call, S) -> S, rejects: Call -> bool) {

    ghost predicate Valid() {
      && InOrder(calls)
      && forall i {:trigger Numbered(calls[i])} :: 0 <= i < |calls| ==> Numbered(calls[i])
    }

    predicate Takes(p: Id, i: nat)
      requires i < |calls|
    {
      calls[i].producer == p && !rejects(calls[i])
    }

    /** A producer after one more call that returned. */
    function Ran(c: Call, p: Producer<S>): Producer<S> {
      Producer(apply(c, p.state), p.handled[c.key := c.offset])
    }

    ghost function At(p: Id, n: nat): Producer<S>
      requires n <= |calls|
    {
      if n == 0 then Producer(init(p), map[])
      else if Takes(p, n - 1) then Ran(calls[n - 1], At(p, n - 1))
      else At(p, n - 1)
    }

    /** The accepted calls of `p` from index `lo` up to `hi`. */
    ghost function Accepted(p: Id, lo: nat, hi: nat): seq<Call>
      requires hi <= |calls|
    {
      if hi <= lo then []
      else if Takes(p, hi - 1) then Accepted(p, lo, hi - 1) + [calls[hi - 1]]
      else Accepted(p, lo, hi - 1)
    }

    function Replayed(from: Producer<S>, cs: seq<Call>): Producer<S> {
      if cs == [] then from else Ran(cs[|cs| - 1], Replayed(from, cs[..|cs| - 1]))
    }

    /** `p` has no call at an index from `n` up to `k`: its memory after `n`
        calls is its memory after `k`. */
    ghost predicate Idle(p: Id, n: nat, k: nat)
      requires k <= |calls|
    {
      forall i :: n <= i < k ==> calls[i].producer != p
    }

    /** How many calls are for records at or below `offset`. */
    function Upto(offset: nat, n: nat): (r: nat)
      requires n <= |calls|
      ensures r <= n
    {
      if n == 0 then 0 else if calls[n - 1].offset <= offset then n else Upto(offset, n - 1)
    }

    function Passed(offset: nat): nat { Upto(offset, |calls|) }

    lemma {:induction false} UptoSplits(offset: nat, n: nat)
      requires Valid() && n <= |calls|
      ensures forall i :: 0 <= i < Upto(offset, n) ==> calls[i].offset <= offset
      ensures forall i :: Upto(offset, n) <= i < n ==> calls[i].offset > offset
    {
      if n > 0 {
        if calls[n - 1].offset > offset {
          UptoSplits(offset, n - 1);
        } else {
          forall i | 0 <= i < n ensures calls[i].offset <= offset {
            assert i < n - 1 ==> Before(calls[i], calls[n - 1]);
          }
        }
      }
    }

    lemma NothingPassed()
      requires Valid()
      ensures Passed(0) == 0
    {
      UptoSplits(0, |calls|);
      assert |calls| > 0 ==> Numbered(calls[0]);
    }

    /** A record at `offset` or above is not passed by what lies below it. */
    lemma PassedBelow(offset: nat, i: nat)
      requires Valid() && i < |calls| && offset < calls[i].offset
      ensures Passed(offset) <= i
    {
      UptoSplits(offset, |calls|);
    }

    /** The calls below the first one beyond `offset` are those passed. */
    lemma PassedBeforeNext(offset: nat)
      requires Valid() && Passed(offset) < |calls|
      ensures calls[Passed(offset)].offset > offset
      ensures Passed(calls[Passed(offset)].offset - 1) == Passed(offset)
    {
      var next := calls[Passed(offset)];
      UptoSplits(offset, |calls|);
      PassedBelow(next.offset - 1, Passed(offset));
      UptoMonotone(offset, next.offset - 1, |calls|);
    }

    lemma {:induction false} UptoMonotone(a: nat, b: nat, n: nat)
      requires a <= b && n <= |calls|
      ensures Upto(a, n) <= Upto(b, n)
    {
      if n > 0 { UptoMonotone(a, b, n - 1); }
    }

    /** Every call of `p` for a record at or below `offset` is below index `n`. */
    ghost predicate Covers(p: Id, n: nat, offset: nat) {
      forall i :: 0 <= i < |calls| && calls[i].producer == p && calls[i].offset <= offset ==> i < n
    }

    /** Memory `m` is the fold of the accepted calls of `p` up to some point,
        and every record at or below `offset` is in it. */
    ghost predicate Holds(p: Id, m: Producer<S>, offset: nat) {
      exists n: nat :: n <= |calls| && m == At(p, n) && Covers(p, n, offset)
    }

    lemma IdleCovers(p: Id, n: nat, settled: nat, offset: nat)
      requires Valid() && n <= |calls| && Idle(p, n, Passed(settled)) && offset <= settled
      ensures Holds(p, At(p, n), offset)
    {
      UptoMonotone(offset, settled, |calls|);
      UptoSplits(offset, |calls|);
      assert Covers(p, n, offset);
    }

    lemma {:induction false} IdleAt(p: Id, n: nat, k: nat, lo: nat)
      requires n <= k <= |calls| && Idle(p, n, k) && lo <= n
      ensures At(p, n) == At(p, k)
      ensures Accepted(p, lo, n) == Accepted(p, lo, k)
      decreases k - n
    {
      if n < k {
        IdleAt(p, n, k - 1, lo);
        assert !Takes(p, k - 1);
      }
    }

    /** Running a producer's later calls again from an earlier memory brings
        it to where it was: what a rewind relies on. */
    lemma {:induction false} ReplayReaches(p: Id, lo: nat, hi: nat)
      requires lo <= hi <= |calls|
      ensures Replayed(At(p, lo), Accepted(p, lo, hi)) == At(p, hi)
    {
      if lo < hi {
        ReplayReaches(p, lo, hi - 1);
        if Takes(p, hi - 1) {
          assert Accepted(p, lo, hi)[..|Accepted(p, lo, hi)| - 1] == Accepted(p, lo, hi - 1);
        }
      }
    }

    /** The memory is the fold of exactly the accepted calls. */
    lemma AtIsFold(p: Id, n: nat)
      requires n <= |calls|
      ensures At(p, n) == Replayed(Producer(init(p), map[]), Accepted(p, 0, n))
    {
      ReplayReaches(p, 0, n);
    }

    /** Those calls are the producer's own accepted ones below `n`: all of
        them, nothing else, none twice, in stream order. */
    lemma {:induction false} AcceptedExactly(p: Id, n: nat)
      requires Valid() && n <= |calls|
      ensures forall c :: c in Accepted(p, 0, n) <==> exists i :: 0 <= i < n && Takes(p, i) && calls[i] == c
      ensures InOrder(Accepted(p, 0, n))
    {
      if n > 0 {
        AcceptedExactly(p, n - 1);
        var before := Accepted(p, 0, n - 1);
        var all := Accepted(p, 0, n);
        forall i, j | 0 <= i < j < |all| ensures Before(all[i], all[j]) {
          if j < |before| {
            assert Before(before[i], before[j]);
          } else {
            assert before[i] in before;
            var k :| 0 <= k < n - 1 && Takes(p, k) && calls[k] == before[i];
            assert Before(calls[k], calls[n - 1]);
          }
        }
      }
    }

    predicate Seen(m: Producer<S>, c: Call) {
      c.key in m.handled && c.offset <= m.handled[c.key]
    }

    /** The handled offsets tell exactly which calls a memory already holds:
        an accepted call is skipped if and only if it is in the fold, and no
        call beyond the fold is ever skipped. */
    lemma {:induction false} SeenExactly(p: Id, n: nat, i: nat)
      requires Valid() && n <= |calls| && i < |calls| && calls[i].producer == p
      ensures i >= n ==> !Seen(At(p, n), calls[i])
      ensures Takes(p, i) ==> (Seen(At(p, n), calls[i]) <==> i < n)
    {
      if n > 0 {
        SeenExactly(p, n - 1, i);
        if Takes(p, n - 1) && calls[n - 1].key == calls[i].key {
          if n - 1 < i { assert Before(calls[n - 1], calls[i]); }
          if i < n - 1 { assert Before(calls[i], calls[n - 1]); }
        }
      }
    }

    /** The first so many of a producer's accepted calls are those up to some
        index: running them again leads to a memory it had. */
    lemma {:induction false} PartReaches(p: Id, lo: nat, hi: nat, j: nat) returns (n: nat)
      requires lo <= hi <= |calls| && j <= |Accepted(p, lo, hi)|
      ensures lo <= n <= hi && Accepted(p, lo, n) == Accepted(p, lo, hi)[..j]
      ensures Replayed(At(p, lo), Accepted(p, lo, hi)[..j]) == At(p, n)
    {
      if j == |Accepted(p, lo, hi)| {
        n := hi;
        assert Accepted(p, lo, hi)[..j] == Accepted(p, lo, hi);
        ReplayReaches(p, lo, hi);
      } else {
        n := PartReaches(p, lo, hi - 1, j);
        assert Accepted(p, lo, hi)[..j] == Accepted(p, lo, hi - 1)[..j];
      }
    }

    lemma {:induction false} NothingTaken(p: Id, n: nat, k: nat)
      requires n <= k <= |calls| && forall i :: n <= i < k ==> !Takes(p, i)
      ensures At(p, n) == At(p, k)
      decreases k - n
    {
      if n < k { NothingTaken(p, n, k - 1); }
    }

    /** Two folds with the same handled offsets are the same memory. */
    lemma HandledTells(p: Id, n: nat, k: nat)
      requires Valid() && n <= |calls| && k <= |calls| && At(p, n).handled == At(p, k).handled
      ensures At(p, n) == At(p, k)
    {
      var lo, hi := Min(n, k), Max(n, k);
      forall i | lo <= i < hi ensures !Takes(p, i) {
        if Takes(p, i) {
          SeenExactly(p, lo, i);
          SeenExactly(p, hi, i);
        }
      }
      NothingTaken(p, lo, hi);
    }

    /** A memory that no run of the calls leads to. */
    ghost predicate NoFold(p: Id, m: Producer<S>) {
      forall n: nat :: n <= |calls| ==> m != At(p, n)
    }

    /** A state with the handled offsets of another memory is a fold only when
        it is that memory's state. */
    lemma TornExactly(p: Id, n: nat, state: S)
      requires Valid() && n <= |calls|
      ensures NoFold(p, Producer(state, At(p, n).handled)) <==> state != At(p, n).state
    {
      if state == At(p, n).state {
        assert Producer(state, At(p, n).handled) == At(p, n);
      }
      forall k: nat | k <= |calls| && At(p, k) == Producer(state, At(p, n).handled) ensures state == At(p, n).state {
        HandledTells(p, k, n);
      }
    }
  }
}
