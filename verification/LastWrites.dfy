/** The last write per topic, and what a view holds for a topic when a snapshot
    that was not read at one point is caught up from the log. */
module LastWrites {
  import opened Options
  import opened NodeStream

  /** A write to a topic: a value, or a tombstone. */
  datatype Write<T, V> = Write(topic: T, value: Option<V>)

  type Log<T, V> = seq<Record<Write<T, V>>>

  datatype Entry<V> = Entry(value: V, offset: nat)

  /** What a view holds for one topic: its entry, and the offset it will not go
      behind (-1 when it has none). */
  datatype Slot<V> = Slot(entry: Option<Entry<V>>, offset: int)

  // ------------------------------------------------------- the plain fold

  /** The last write to every topic in scope, up to an offset; a tombstone removes. */
  function Fold<T(==), V>(log: Log<T, V>, inScope: T -> bool, upto: int): map<T, Entry<V>> {
    if log == [] then map[]
    else
      var before, last := Fold(log[..|log| - 1], inScope, upto), log[|log| - 1];
      if last.offset > upto || !inScope(last.body.topic) then before
      else if last.body.value.None? then before - {last.body.topic}
      else before[last.body.topic := Entry(last.body.value.value, last.offset)]
  }

  // ------------------------------------------------------- topic by topic

  /** The last write to a topic with `lo < offset <= hi`. */
  function LastIn<T(==), V>(log: Log<T, V>, t: T, lo: int, hi: int): Option<Record<Write<T, V>>> {
    if log == [] then None
    else
      var last := log[|log| - 1];
      if last.body.topic == t && lo < last.offset <= hi then Some(last) else LastIn(log[..|log| - 1], t, lo, hi)
  }

  function Shown<T, V>(r: Option<Record<Write<T, V>>>): Option<Entry<V>> {
    if r.Some? && r.value.body.value.Some? then Some(Entry(r.value.body.value.value, r.value.offset)) else None
  }

  /** The state of a topic once everything up to an offset was written. */
  function StateAt<T(==), V>(log: Log<T, V>, t: T, upto: int): Option<Entry<V>> {
    Shown(LastIn(log, t, -1, upto))
  }

  function Get<T(==), V>(m: map<T, V>, t: T): Option<V> {
    if t in m then Some(m[t]) else None
  }

  ghost predicate Within<T, V>(log: Log<T, V>, t: T, lo: int, hi: int, r: Record<Write<T, V>>) {
    r in log && r.body.topic == t && lo < r.offset <= hi
  }

  /** Nothing is written to a topic with `lo < offset <= hi`. */
  ghost predicate Silent<T, V>(log: Log<T, V>, t: T, lo: int, hi: int) {
    forall r :: r in log ==> !Within(log, t, lo, hi, r)
  }

  /** It is the last, and there is none only when there is none. */
  lemma {:induction false} LastInIs<T, V>(log: Log<T, V>, t: T, lo: int, hi: int)
    requires IsLog(log)
    ensures LastIn(log, t, lo, hi).Some? ==> Within(log, t, lo, hi, LastIn(log, t, lo, hi).value)
    ensures forall r :: Within(log, t, lo, hi, r) ==>
      LastIn(log, t, lo, hi).Some? && r.offset <= LastIn(log, t, lo, hi).value.offset
  {
    if log != [] {
      FrontIsLog(log);
      var front, last := log[..|log| - 1], log[|log| - 1];
      LastInIs(front, t, lo, hi);
      forall r | Within(log, t, lo, hi, r)
        ensures LastIn(log, t, lo, hi).Some? && r.offset <= LastIn(log, t, lo, hi).value.offset
      {
        assert r == last || Within(front, t, lo, hi, r);
      }
      assert last.body.topic == t && lo < last.offset <= hi ==> Within(log, t, lo, hi, last);
      var before := LastIn(front, t, lo, hi);
      assert before.Some? ==> Within(log, t, lo, hi, before.value);
    }
  }

  /** Equal offsets, equal records. */
  lemma OffsetIdentifies<R>(log: seq<Record<R>>, a: Record<R>, b: Record<R>)
    requires IsLog(log) && a in log && b in log && a.offset == b.offset
    ensures a == b
  {
    var i :| 0 <= i < |log| && log[i] == a;
    var j :| 0 <= j < |log| && log[j] == b;
    assert i < j ==> Earlier(log[i], log[j]);
    assert j < i ==> Earlier(log[j], log[i]);
  }

  /** A record that no other one of its range follows is the last. */
  lemma IsTheLast<T, V>(log: Log<T, V>, t: T, lo: int, hi: int, r: Record<Write<T, V>>)
    requires IsLog(log) && Within(log, t, lo, hi, r)
    requires forall x :: Within(log, t, lo, hi, x) ==> x.offset <= r.offset
    ensures LastIn(log, t, lo, hi) == Some(r)
  {
    LastInIs(log, t, lo, hi);
    OffsetIdentifies(log, r, LastIn(log, t, lo, hi).value);
  }

  /** Ranges without a difference in records have the same last. */
  lemma SameLast<T, V>(log: Log<T, V>, t: T, lo: int, hi: int, lo': int, hi': int)
    requires IsLog(log)
    requires forall r :: Within(log, t, lo, hi, r) <==> Within(log, t, lo', hi', r)
    ensures LastIn(log, t, lo, hi) == LastIn(log, t, lo', hi')
  {
    LastInIs(log, t, lo, hi);
    LastInIs(log, t, lo', hi');
    if LastIn(log, t, lo, hi).Some? {
      IsTheLast(log, t, lo', hi', LastIn(log, t, lo, hi).value);
    }
  }

  /** Topic by topic, the fold is the state of the log. */
  lemma {:induction false} FoldIsState<T, V>(log: Log<T, V>, inScope: T -> bool, upto: int, t: T)
    requires IsLog(log)
    ensures Get(Fold(log, inScope, upto), t) == if inScope(t) then StateAt(log, t, upto) else None
  {
    if log != [] {
      FrontIsLog(log);
      FoldIsState(log[..|log| - 1], inScope, upto, t);
    }
  }

  // ------------------------------------------- a snapshot, then the log

  /** What a view that read a topic's entry at `read` and then applied the log
      from `head` to `upto` holds for it. */
  function Expected<T(==), V>(log: Log<T, V>, t: T, head: int, read: int, upto: int): Slot<V> {
    var snapshot, last := StateAt(log, t, read), LastIn(log, t, head, upto);
    var from := if snapshot.Some? then snapshot.value.offset else -1;
    if last.Some? && last.value.offset > from then Slot(Shown(last), last.value.offset) else Slot(snapshot, from)
  }

  /** Applying a record: one that is not newer than what is held is ignored. */
  function Applied<T, V>(slot: Slot<V>, r: Record<Write<T, V>>): Slot<V> {
    if r.offset <= slot.offset then slot else Slot(Shown(Some(r)), r.offset)
  }

  /** Once the view has caught up with where the topic was read, it holds
      exactly the topic's state; before, it holds one the topic had there or
      when it was read. */
  lemma Converges<T, V>(log: Log<T, V>, t: T, head: int, read: int, upto: int)
    requires IsLog(log) && -1 <= head <= read && head <= upto
    ensures upto >= read ==> Expected(log, t, head, read, upto).entry == StateAt(log, t, upto)
    ensures upto < read ==> Expected(log, t, head, read, upto).entry in {StateAt(log, t, upto), StateAt(log, t, read)}
    ensures upto < read && StateAt(log, t, read).Some? ==>
      Expected(log, t, head, read, upto).entry == StateAt(log, t, read)
  {
    LastInIs(log, t, -1, read);
    LastInIs(log, t, head, upto);
    LastInIs(log, t, -1, upto);
    var whole, last := LastIn(log, t, -1, upto), LastIn(log, t, head, upto);
    if last.Some? {
      forall x | Within(log, t, -1, upto, x) ensures x.offset <= last.value.offset {
        assert x.offset > head ==> Within(log, t, head, upto, x);
      }
      assert Within(log, t, -1, upto, last.value);
      IsTheLast(log, t, -1, upto, last.value);
      assert last.value.offset <= read ==> Within(log, t, -1, read, last.value);
    }
    if upto >= read {
      if last.None? {
        forall r ensures Within(log, t, -1, upto, r) <==> Within(log, t, -1, read, r) {
          assert Within(log, t, -1, upto, r) && r.offset > head ==> Within(log, t, head, upto, r);
        }
        SameLast(log, t, -1, upto, -1, read);
      } else if last.value.offset <= read {
        forall r ensures Within(log, t, -1, upto, r) <==> Within(log, t, -1, read, r) {
          assert Within(log, t, -1, upto, r) && r.offset > head ==> Within(log, t, head, upto, r);
        }
        SameLast(log, t, -1, upto, -1, read);
      }
    }
  }

  /** Nothing of a topic in a range: what is held for it stays. */
  lemma StaysExpected<T, V>(log: Log<T, V>, t: T, head: int, read: int, upto: int, upto': int)
    requires IsLog(log) && upto <= upto' && Silent(log, t, upto, upto')
    ensures Expected(log, t, head, read, upto') == Expected(log, t, head, read, upto)
  {
    forall r ensures Within(log, t, head, upto, r) <==> Within(log, t, head, upto', r) {
      assert Within(log, t, head, upto', r) && r.offset > upto ==> Within(log, t, upto, upto', r);
    }
    SameLast(log, t, head, upto, head, upto');
  }

  /** Applying a record again changes nothing; applying the next one of its
      topic leads to what is expected there. */
  lemma StepsExpected<T, V>(log: Log<T, V>, t: T, head: int, read: int, upto: int, r: Record<Write<T, V>>)
    requires IsLog(log) && r in log && r.body.topic == t && r.offset > head
    requires Silent(log, t, upto, r.offset - 1)
    ensures Applied(Expected(log, t, head, read, upto), r) == Expected(log, t, head, read, Max(upto, r.offset))
  {
    LastInIs(log, t, head, upto);
    if r.offset <= upto {
      assert Within(log, t, head, upto, r);
    } else {
      assert Within(log, t, head, r.offset, r);
      IsTheLast(log, t, head, r.offset, r);
      LastInIs(log, t, -1, read);
      assert r.offset <= read ==> Within(log, t, -1, read, r);
      var last := LastIn(log, t, head, upto);
      assert last.Some? && last.value.offset <= read ==> Within(log, t, -1, read, last.value);
    }
  }
}
