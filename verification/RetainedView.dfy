/** A retained view: a snapshot of entries read at no one point, caught up from
    the streams, and published whole. */
module RetainedView {
  import opened Options
  import opened NodeStream
  import opened LastWrites

  /** The topics of one stream that a view keeps. */
  datatype Scope<!T> = Scope(inScope: T -> bool, streamOf: T -> nat) {

    predicate Keeps(t: T, s: nat) { inScope(t) && streamOf(t) == s }
  }

  type Entries<T, V> = map<T, Entry<V>>

  function SlotOf<T(==), V>(entries: Entries<T, V>, offsets: map<T, nat>, t: T): Slot<V> {
    Slot(Get(entries, t), if t in offsets then offsets[t] else -1)
  }

  /** The view holds, for a topic of a stream, what it must after it read the
      topic's entry and applied the log up to `upto`. */
  ghost predicate Holds<T, V>(scope: Scope<T>, s: nat, log: Log<T, V>, entries: Entries<T, V>, offsets: map<T, nat>,
                              head: nat, readAt: T -> nat, upto: int, t: T) {
    scope.Keeps(t, s) ==>
      head <= readAt(t) && SlotOf(entries, offsets, t) == Expected(log, t, head, readAt(t), upto)
  }

  ghost predicate Tracks<T(!new), V>(scope: Scope<T>, s: nat, log: Log<T, V>, entries: Entries<T, V>,
                                     offsets: map<T, nat>, head: nat, readAt: T -> nat, upto: int) {
    forall t :: Holds(scope, s, log, entries, offsets, head, readAt, upto, t)
  }

  /** `r` put into the entries: a tombstone removes. */
  function Put<T(==), V>(entries: Entries<T, V>, r: Record<Write<T, V>>): Entries<T, V> {
    if r.body.value.None? then entries - {r.body.topic}
    else entries[r.body.topic := Entry(r.body.value.value, r.offset)]
  }

  /** Applying the next record of a stream, or one that was applied before. */
  lemma TracksApplied<T(!new), V>(scope: Scope<T>, s: nat, log: Log<T, V>, entries: Entries<T, V>, offsets: map<T, nat>,
                                  head: nat, readAt: T -> nat, upto: int, r: Record<Write<T, V>>)
    requires IsLog(log) && r in log && scope.Keeps(r.body.topic, s) && head < r.offset
    requires Tracks(scope, s, log, entries, offsets, head, readAt, upto)
    requires forall t :: scope.Keeps(t, s) ==> Silent(log, t, upto, r.offset - 1)
    ensures var newer := r.offset > SlotOf(entries, offsets, r.body.topic).offset;
      Tracks(scope, s, log, if newer then Put(entries, r) else entries,
             if newer then offsets[r.body.topic := r.offset] else offsets, head, readAt, Max(upto, r.offset))
  {
    var newer := r.offset > SlotOf(entries, offsets, r.body.topic).offset;
    var entries' := if newer then Put(entries, r) else entries;
    var offsets' := if newer then offsets[r.body.topic := r.offset] else offsets;
    forall t ensures Holds(scope, s, log, entries', offsets', head, readAt, Max(upto, r.offset), t) {
      assert Holds(scope, s, log, entries, offsets, head, readAt, upto, t);
      if scope.Keeps(t, s) {
        if t == r.body.topic {
          StepsExpected(log, t, head, readAt(t), upto, r);
        } else {
          SilentPast(log, t, upto, r);
          StaysExpected(log, t, head, readAt(t), upto, Max(upto, r.offset));
        }
      }
    }
  }

  /** A record of one topic is none of another. */
  lemma SilentPast<T, V>(log: Log<T, V>, t: T, upto: int, r: Record<Write<T, V>>)
    requires IsLog(log) && r in log && r.body.topic != t && Silent(log, t, upto, r.offset - 1)
    ensures Silent(log, t, upto, Max(upto, r.offset))
  {
    forall x | x in log ensures !Within(log, t, upto, Max(upto, r.offset), x) {
      if x.offset == r.offset { OffsetIdentifies(log, x, r); }
      assert !Within(log, t, upto, r.offset - 1, x);
    }
  }

  /** Applying a record of another stream. */
  lemma TracksOther<T(!new), V>(scope: Scope<T>, s: nat, log: Log<T, V>, entries: Entries<T, V>, offsets: map<T, nat>,
                                head: nat, readAt: T -> nat, upto: int, r: Record<Write<T, V>>)
    requires Tracks(scope, s, log, entries, offsets, head, readAt, upto) && scope.streamOf(r.body.topic) != s
    ensures Tracks(scope, s, log, Put(entries, r), offsets[r.body.topic := r.offset], head, readAt, upto)
  {
    var entries', offsets' := Put(entries, r), offsets[r.body.topic := r.offset];
    forall t ensures Holds(scope, s, log, entries', offsets', head, readAt, upto, t) {
      assert Holds(scope, s, log, entries, offsets, head, readAt, upto, t);
    }
  }

  /** Nothing in scope lies in a range: moving past it changes nothing. */
  lemma TracksSilent<T(!new), V>(scope: Scope<T>, s: nat, log: Log<T, V>, entries: Entries<T, V>, offsets: map<T, nat>,
                                 head: nat, readAt: T -> nat, upto: int, upto': int)
    requires IsLog(log) && upto <= upto' && forall t :: scope.Keeps(t, s) ==> Silent(log, t, upto, upto')
    requires Tracks(scope, s, log, entries, offsets, head, readAt, upto)
    ensures Tracks(scope, s, log, entries, offsets, head, readAt, upto')
  {
    forall t ensures Holds(scope, s, log, entries, offsets, head, readAt, upto', t) {
      assert Holds(scope, s, log, entries, offsets, head, readAt, upto, t);
      if scope.Keeps(t, s) { StaysExpected(log, t, head, readAt(t), upto, upto'); }
    }
  }

  /** A fresh snapshot is what is expected at the head it was read behind. */
  lemma TracksSnapshot<T(!new), V>(scope: Scope<T>, s: nat, log: Log<T, V>, entries: Entries<T, V>,
                                   offsets: map<T, nat>, head: nat, readAt: T -> nat)
    requires IsLog(log) && forall t :: scope.Keeps(t, s) ==> SnapshotOf(log, entries, offsets, head, readAt(t), t)
    ensures Tracks(scope, s, log, entries, offsets, head, readAt, head)
  {
    forall t ensures Holds(scope, s, log, entries, offsets, head, readAt, head, t) {
      if scope.Keeps(t, s) {
        assert SnapshotOf(log, entries, offsets, head, readAt(t), t);
        LastInIs(log, t, head, head);
      }
    }
  }

  /** The entry of a topic was read, at a point of its own, behind the head. */
  ghost predicate SnapshotOf<T, V>(log: Log<T, V>, entries: Entries<T, V>, offsets: map<T, nat>, head: nat, read: nat,
                                   t: T) {
    && head <= read
    && Get(entries, t) == StateAt(log, t, read)
    && (t in offsets <==> t in entries) && (t in offsets ==> offsets[t] == entries[t].offset)
  }

  // ------------------------------------------------------- reading pages

  /** Nothing the node's filter keeps lies in a range. */
  ghost predicate NothingKept<T, V>(log: Log<T, V>, filter: Write<T, V> -> bool, lo: int, hi: int) {
    forall x :: x in log && filter(x.body) ==> !(lo < x.offset <= hi)
  }

  /** What the filter drops is out of scope. */
  lemma NothingInScope<T, V>(scope: Scope<T>, s: nat, log: Log<T, V>, filter: Write<T, V> -> bool, lo: int, hi: int)
    requires NothingKept(log, filter, lo, hi) && forall x :: x in log && scope.inScope(x.body.topic) ==> filter(x.body)
    ensures forall t :: scope.Keeps(t, s) ==> Silent(log, t, lo, hi)
  {
  }

  /** Between one record of a page and the next there is nothing to apply, and
      nothing behind the last up to where the page is acknowledged. */
  lemma PageIsWhole<T, V>(log: Log<T, V>, filter: Write<T, V> -> bool, cursor: nat, page: Page<Write<T, V>>, k: nat,
                          upto: int)
    requires IsLog(log) && IsPage(log, filter, cursor + 1, page) && page.gap.None? && k <= |page.records|
    requires cursor <= upto && (k > 0 ==> page.records[k - 1].offset <= upto)
    ensures k < |page.records| ==> page.records[k] in log && page.records[k].offset > cursor
    ensures k < |page.records| ==> NothingKept(log, filter, upto, page.records[k].offset - 1)
    ensures k == |page.records| ==> NothingKept(log, filter, upto, page.next - 1)
  {
    var hi := if k < |page.records| then page.records[k].offset - 1 else page.next - 1;
    SelectExactly(log, filter, cursor + 1, page.next);
    if k < |page.records| { assert Kept(log, filter, cursor + 1, page.next, page.records[k]); }
    forall x | x in log && filter(x.body) ensures !(upto < x.offset <= hi) {
      if cursor < x.offset < page.next {
        var j :| 0 <= j < |page.records| && page.records[j] == x;
        assert k < j < |page.records| ==> Earlier(page.records[k], page.records[j]);
        assert j < k - 1 ==> Earlier(page.records[j], page.records[k - 1]);
      }
    }
  }

  /** The page's acknowledgement is where it ends. */
  lemma AckEnds<T, V>(log: Log<T, V>, filter: Write<T, V> -> bool, cursor: nat, page: Page<Write<T, V>>)
    requires IsLog(log) && IsPage(log, filter, cursor + 1, page) && page.gap.None?
    ensures page.AckOffset().Some? ==>
      page.AckOffset().value == page.next - 1 && (page.start.Some? ==> page.next > cursor + 1)
    ensures page.AckOffset().Some? ==> page.next > cursor + 1
    ensures page.AckOffset().None? ==> page.records == [] && page.next - 1 >= cursor
    ensures page.AckOffset().None? && page.start.Some? ==> page.next - 1 == cursor
  {
    AckCovers(log, filter, cursor + 1, page);
    SelectExactly(log, filter, cursor + 1, page.next);
    assert page.records != [] ==> Kept(log, filter, cursor + 1, page.next, page.records[|page.records| - 1]);
  }

  // ------------------------------------------------------ what was published

  /** Equal revisions, equal entries; and what was published under the view's
      own revision is what it holds. */
  ghost predicate Consistent<T, V>(history: seq<(nat, Entries<T, V>)>, revision: nat, initialized: bool,
                                   entries: Entries<T, V>) {
    && (forall i :: 0 <= i < |history| ==> Published(history[i], revision, initialized, entries))
    && (forall i, j :: 0 <= i < j < |history| ==> Agree(history[i], history[j]))
  }

  ghost predicate Published<T, V>(p: (nat, Entries<T, V>), revision: nat, initialized: bool, entries: Entries<T, V>) {
    p.0 <= revision && (initialized && p.0 == revision ==> p.1 == entries)
  }

  ghost predicate Agree<T, V>(a: (nat, Entries<T, V>), b: (nat, Entries<T, V>)) {
    a.0 == b.0 ==> a.1 == b.1
  }

  /** Publishing what the view holds, under its revision. */
  lemma ConsistentPublished<T, V>(history: seq<(nat, Entries<T, V>)>, revision: nat, entries: Entries<T, V>)
    requires Consistent(history, revision, true, entries)
    ensures Consistent(history + [(revision, entries)], revision, true, entries)
  {
    var h := history + [(revision, entries)];
    forall i | 0 <= i < |h| ensures Published(h[i], revision, true, entries) {
      assert i < |history| ==> Published(history[i], revision, true, entries);
    }
    forall i, j | 0 <= i < j < |h| ensures Agree(h[i], h[j]) {
      assert Published(history[i], revision, true, entries);
      assert j < |history| ==> Agree(history[i], history[j]);
    }
  }

  /** The entries change under a new revision, or while the view is not initialized. */
  lemma ConsistentChanged<T, V>(history: seq<(nat, Entries<T, V>)>, revision: nat, initialized: bool,
                                entries: Entries<T, V>, revision': nat, initialized': bool, entries': Entries<T, V>)
    requires Consistent(history, revision, initialized, entries)
    requires revision' > revision || (revision' == revision && (!initialized' || (initialized && entries' == entries)))
    ensures Consistent(history, revision', initialized', entries')
  {
    forall i | 0 <= i < |history| ensures Published(history[i], revision', initialized', entries') {
      assert Published(history[i], revision, initialized, entries);
    }
  }

  // --------------------------------------------------------------- the view

  /** What an acknowledgement does: the node may take one whose reply is lost. */
  datatype Reply = Taken | Refused | ReplyLost

  /** What a rebuild reads: the head of every stream, then the entries, each at
      a point of its own behind its stream's head; and the replies it gets. */
  datatype Boot<!T, V> = Boot(heads: seq<nat>, entries: Entries<T, V>, readAt: T -> nat, ack: nat -> Reply)

  /** The surroundings of one round over the streams: what a rebuild would read
      where the cursors stand (none when it fails), the head to read each stream to (none when reading
      it fails), whether its hint is of the subscription it was last drained
      on, the n-th page of a stream from an offset, and the reply to the n-th
      acknowledgement. */
  datatype Round<!T, !V> = Round(boot: seq<nat> -> Option<Boot<T, V>>, head: nat -> Option<nat>, hinted: nat -> bool,
                                 fetch: (nat, nat, nat) -> Option<Page<Write<T, V>>>, ack: (nat, nat) -> Reply)

  datatype Ending = Complete | Rebuild | Raised

  /** Where the last rebuild read a stream's head, up to where the stream was
      applied since, whether what was applied may not all be acknowledged
      (an acknowledgement failed since), and whether the node lost
      acknowledged records of it since. */
  datatype Mark = Mark(head: nat, applied: nat, behind: bool, lost: bool)

  /** A stream holds the topics that are its own, and the node's filter drops
      none that is in scope. */
  ghost predicate IsStream<T, V>(scope: Scope<T>, filter: Write<T, V> -> bool, s: nat, log: Log<T, V>) {
    && IsLog(log)
    && forall r :: r in log && scope.inScope(r.body.topic) ==> filter(r.body) && scope.streamOf(r.body.topic) == s
  }

  /** Positions of a stream that fit together: what is acknowledged is applied. */
  predicate InOrder(cursor: nat, position: nat, m: Mark, reportsStart: bool) {
    && m.head <= m.applied
    && (if m.lost then reportsStart && cursor < position
        else m.head <= cursor <= m.applied && position <= m.applied
             && (reportsStart && !m.behind ==> position == cursor == m.applied))
  }

  /** The view tracks every stream; one that lost acknowledged records tells
      it so when it is read next. */
  ghost predicate Follows<T(!new), V>(scope: Scope<T>, logs: seq<Log<T, V>>, entries: Entries<T, V>,
                                      offsets: map<T, nat>, readAt: T -> nat, marks: seq<Mark>, s: nat)
    requires s < |logs| && s < |marks|
  {
    !marks[s].lost ==> Tracks(scope, s, logs[s], entries, offsets, marks[s].head, readAt, marks[s].applied)
  }

  function OffsetsOf<T(==), V>(entries: Entries<T, V>): map<T, nat> {
    map t | t in entries :: entries[t].offset
  }

  ghost predicate AllFollow<T(!new), V>(scope: Scope<T>, logs: seq<Log<T, V>>, entries: Entries<T, V>,
                                        offsets: map<T, nat>, readAt: T -> nat, marks: seq<Mark>) {
    |logs| == |marks| && forall s :: 0 <= s < |marks| ==> Follows(scope, logs, entries, offsets, readAt, marks, s)
  }

  /** One more record of a stream, applied if it is in scope and newer. */
  lemma FollowsApplied<T(!new), V>(scope: Scope<T>, filter: Write<T, V> -> bool, logs: seq<Log<T, V>>,
                                   entries: Entries<T, V>, offsets: map<T, nat>, readAt: T -> nat, marks: seq<Mark>,
                                   s: nat, r: Record<Write<T, V>>)
    requires AllFollow(scope, logs, entries, offsets, readAt, marks) && s < |marks| && !marks[s].lost
    requires IsStream(scope, filter, s, logs[s]) && r in logs[s] && marks[s].head < r.offset
    requires NothingKept(logs[s], filter, marks[s].applied, r.offset - 1)
    ensures var newer := scope.inScope(r.body.topic) && r.offset > SlotOf(entries, offsets, r.body.topic).offset;
      AllFollow(scope, logs, if newer then Put(entries, r) else entries,
                if newer then offsets[r.body.topic := r.offset] else offsets,
                readAt, Moved(marks, s, r.offset))
  {
    var newer := scope.inScope(r.body.topic) && r.offset > SlotOf(entries, offsets, r.body.topic).offset;
    var entries' := if newer then Put(entries, r) else entries;
    var offsets' := if newer then offsets[r.body.topic := r.offset] else offsets;
    var marks' := Moved(marks, s, r.offset);
    NothingInScope(scope, s, logs[s], filter, marks[s].applied, r.offset - 1);
    forall s' | 0 <= s' < |marks| ensures Follows(scope, logs, entries', offsets', readAt, marks', s') {
      assert Follows(scope, logs, entries, offsets, readAt, marks, s');
      if s' == s {
        if scope.inScope(r.body.topic) {
          TracksApplied(scope, s, logs[s], entries, offsets, marks[s].head, readAt, marks[s].applied, r);
        } else {
          forall t | scope.Keeps(t, s) ensures Silent(logs[s], t, marks[s].applied, marks'[s].applied) {
            SilentPast(logs[s], t, marks[s].applied, r);
          }
          TracksSilent(scope, s, logs[s], entries, offsets, marks[s].head, readAt, marks[s].applied, marks'[s].applied);
        }
      } else if newer && !marks[s'].lost {
        TracksOther(scope, s', logs[s'], entries, offsets, marks[s'].head, readAt, marks[s'].applied, r);
      }
    }
  }

  /** Nothing was left of a page: its stream is applied to where it ends. */
  lemma FollowsOn<T(!new), V>(scope: Scope<T>, filter: Write<T, V> -> bool, logs: seq<Log<T, V>>,
                              entries: Entries<T, V>, offsets: map<T, nat>, readAt: T -> nat, marks: seq<Mark>, s: nat,
                              upto: nat)
    requires AllFollow(scope, logs, entries, offsets, readAt, marks) && s < |marks| && !marks[s].lost
    requires IsStream(scope, filter, s, logs[s]) && NothingKept(logs[s], filter, marks[s].applied, upto)
    ensures AllFollow(scope, logs, entries, offsets, readAt, Moved(marks, s, upto))
  {
    var marks' := Moved(marks, s, upto);
    forall s' | 0 <= s' < |marks| ensures Follows(scope, logs, entries, offsets, readAt, marks', s') {
      assert Follows(scope, logs, entries, offsets, readAt, marks, s');
      if s' == s && upto > marks[s].applied {
        NothingInScope(scope, s, logs[s], filter, marks[s].applied, upto);
        TracksSilent(scope, s, logs[s], entries, offsets, marks[s].head, readAt, marks[s].applied, upto);
      }
    }
  }

  /** Following depends on where a stream is applied to, not on what is acknowledged. */
  lemma FollowsStill<T(!new), V>(scope: Scope<T>, logs: seq<Log<T, V>>, entries: Entries<T, V>, offsets: map<T, nat>,
                                 readAt: T -> nat, marks: seq<Mark>, s: nat, behind: bool)
    requires AllFollow(scope, logs, entries, offsets, readAt, marks) && s < |marks|
    ensures AllFollow(scope, logs, entries, offsets, readAt, marks[s := marks[s].(behind := behind)])
  {
    var marks' := marks[s := marks[s].(behind := behind)];
    forall s' | 0 <= s' < |marks| ensures Follows(scope, logs, entries, offsets, readAt, marks', s') {
      assert Follows(scope, logs, entries, offsets, readAt, marks, s');
    }
  }

  /** A stream that was lost is not followed until the next rebuild. */
  lemma FollowsNothing<T(!new), V>(scope: Scope<T>, logs: seq<Log<T, V>>, entries: Entries<T, V>, offsets: map<T, nat>,
                                   readAt: T -> nat, marks: seq<Mark>, s: nat, log: Log<T, V>)
    requires AllFollow(scope, logs, entries, offsets, readAt, marks) && s < |marks|
    ensures AllFollow(scope, logs[s := log], entries, offsets, readAt, marks[s := marks[s].(lost := true)])
  {
    var logs', marks' := logs[s := log], marks[s := marks[s].(lost := true)];
    forall s' | 0 <= s' < |marks| ensures Follows(scope, logs', entries, offsets, readAt, marks', s') {
      assert Follows(scope, logs, entries, offsets, readAt, marks, s');
    }
  }

  /** The marks of a rebuild. */
  function Fresh(heads: seq<nat>): (marks: seq<Mark>)
    ensures |marks| == |heads| && forall s :: 0 <= s < |heads| ==> marks[s] == Mark(heads[s], heads[s], false, false)
  {
    seq(|heads|, s requires 0 <= s < |heads| => Mark(heads[s], heads[s], false, false))
  }

  /** Entries show, for every topic of a stream, a state it had at an offset or
      later. */
  ghost predicate ShowsSince<T(!new), V(!new)>(scope: Scope<T>, s: nat, log: Log<T, V>, entries: Entries<T, V>,
                                               at: nat) {
    forall t :: scope.Keeps(t, s) ==> HadSince(log, t, at, Get(entries, t))
  }

  ghost predicate AllShow<T(!new), V(!new)>(scope: Scope<T>, logs: seq<Log<T, V>>, entries: Entries<T, V>,
                                            at: seq<Option<nat>>) {
    && |at| == |logs|
    && forall s :: 0 <= s < |logs| && at[s].Some? ==> ShowsSince(scope, s, logs[s], entries, at[s].value)
  }

  /** A topic's state is still its state at some point from a head on: nothing
      was written over it by then, or it is absent and is so again from then on. */
  ghost predicate StillShows<T, V>(log: Log<T, V>, t: T, head: nat, state: Option<Entry<V>>) {
    match state
    case Some(entry) => Silent(log, t, entry.offset, head)
    case None => StateAt(log, t, head).None? || exists r :: r in log && Removes(r, t, head)
  }

  ghost predicate Removes<T, V>(r: Record<Write<T, V>>, t: T, since: nat) {
    r.body.topic == t && r.body.value.None? && r.offset > since
  }

  /** A state that a topic had is one it had at a head or later exactly when it
      is still shown there. */
  lemma HadSinceExactly<T, V>(log: Log<T, V>, t: T, at: nat, head: nat)
    requires IsLog(log)
    ensures HadSince(log, t, head, StateAt(log, t, at)) <==> StillShows(log, t, head, StateAt(log, t, at))
    ensures at >= head ==> HadSince(log, t, head, StateAt(log, t, at))
  {
    if StateAt(log, t, at).Some? { ShownStays(log, t, at, head); } else { AbsentStays(log, t, head); }
  }

  lemma ShownStays<T, V>(log: Log<T, V>, t: T, at: nat, head: nat)
    requires IsLog(log) && StateAt(log, t, at).Some?
    ensures HadSince(log, t, head, StateAt(log, t, at)) <==> Silent(log, t, StateAt(log, t, at).value.offset, head)
  {
    var o := StateAt(log, t, at).value.offset;
    LastInIs(log, t, -1, at);
    if u: nat :| u >= head && StateAt(log, t, at) == StateAt(log, t, u) {
      LastInIs(log, t, -1, u);
      forall r | r in log ensures !Within(log, t, o, head, r) {
        assert Within(log, t, o, head, r) ==> Within(log, t, -1, u, r);
      }
    }
    if Silent(log, t, o, head) {
      var u := Max(at, head);
      forall r ensures Within(log, t, -1, at, r) <==> Within(log, t, -1, u, r) {
        assert Within(log, t, -1, u, r) && r.offset > o ==> r.offset <= at || Within(log, t, o, head, r);
      }
      SameLast(log, t, -1, at, -1, u);
      assert StateAt(log, t, at) == StateAt(log, t, u);
    }
  }

  lemma AbsentStays<T, V>(log: Log<T, V>, t: T, head: nat)
    requires IsLog(log)
    ensures HadSince<T, V>(log, t, head, None) <==>
      StateAt(log, t, head).None? || exists r :: r in log && Removes(r, t, head)
  {
    if u: nat :| u >= head && StateAt(log, t, u).None? {
      LastInIs(log, t, -1, u);
      var last := LastIn(log, t, -1, u);
      if last.Some? && last.value.offset > head {
        assert Removes(last.value, t, head);
      } else {
        forall r ensures Within(log, t, -1, u, r) <==> Within(log, t, -1, head, r) {}
        SameLast(log, t, -1, u, -1, head);
      }
    }
    if r :| r in log && Removes(r, t, head) {
      LastInIs(log, t, -1, r.offset);
      assert Within(log, t, -1, r.offset, r);
      IsTheLast(log, t, -1, r.offset, r);
      assert StateAt(log, t, r.offset).None?;
    }
  }

  /** Where streams are applied to that the node lost nothing of. */
  ghost function HeldAt(marks: seq<Mark>): (at: seq<Option<nat>>)
    ensures |at| == |marks|
    ensures forall s :: 0 <= s < |at| ==> at[s] == if marks[s].lost then None else Some(marks[s].applied)
  {
    seq(|marks|, s requires 0 <= s < |marks| => if marks[s].lost then None else Some(marks[s].applied))
  }

  /** What happens to a view: a flush, an outage, a node that is restored. */
  datatype ViewEvent<!T, !V> =
    | Flush(wanted: seq<nat>, rounds: (seq<Log<T, V>>, nat) -> Round<T, V>)
    | Fails
    | Restored(s: nat, log: Log<T, V>, cursor: nat)

  /** Where a view and its streams stand. */
  datatype Standing<T, V> = Standing(logs: seq<Log<T, V>>, positions: seq<nat>, initialized: bool, available: bool,
                                     revision: nat, published: Option<(nat, Entries<T, V>)>)

  class View<T(==,!new), V(!new)> {
    /** How many streams it reads. */
    const n: nat
    const scope: Scope<T>
    /** What the node's filters keep. */
    const filter: Write<T, V> -> bool
    const reportsStart: bool

    // The node's: the log of every stream, and the view's cursors.
    var logs: seq<Log<T, V>>
    var cursors: seq<nat>

    // The view's.
    var entries: Entries<T, V>
    var offsets: map<T, nat>
    var positions: seq<nat>
    var initialized: bool
    var available: bool
    var revision: nat
    var published: Option<(nat, Entries<T, V>)>

    ghost var readAt: T -> nat
    ghost var marks: seq<Mark>
    /** Everything that was published. */
    ghost var history: seq<(nat, Entries<T, V>)>
    /** Where every stream was applied to when what is published was last what
        the view held; none where the node lost records since. */
    ghost var publishedAt: seq<Option<nat>>

    constructor (scope: Scope<T>, filter: Write<T, V> -> bool, reportsStart: bool, logs: seq<Log<T, V>>,
                 ghost anywhere: T -> nat)
      requires forall s :: 0 <= s < |logs| ==> IsStream(scope, filter, s, logs[s])
      ensures Valid() && !initialized && history == []
      ensures |cursors| == |logs| && forall s :: 0 <= s < |logs| ==> cursors[s] == 0
      ensures n == |logs| && this.scope == scope && this.filter == filter
      ensures this.logs == logs && this.reportsStart == reportsStart
    {
      n, this.scope, this.filter, this.reportsStart, this.logs := |logs|, scope, filter, reportsStart, logs;
      cursors, positions := seq(|logs|, _ => 0), seq(|logs|, _ => 0);
      entries, offsets := map[], map[];
      initialized, available, revision, published := false, false, 0, None;
      readAt, marks, history := anywhere, seq(|logs|, _ => Mark(0, 0, false, false)), [];
      publishedAt := [];
    }

    ghost predicate Valid()
      reads this
    {
      && |logs| == |cursors| == |positions| == |marks| == n
      && (forall s :: 0 <= s < n ==> IsStream(scope, filter, s, logs[s]))
      && (initialized ==> Caught())
      && Consistent(history, revision, initialized, entries)
      && published == (if history == [] then None else Some(history[|history| - 1]))
      && PublishedShows()
    }

    /** What is published shows, for every topic, a state it had where its
        stream was applied to by then or later. */
    ghost predicate PublishedShows()
      reads this`logs, this`published, this`publishedAt
    {
      published.Some? ==> AllShow(scope, logs, published.value.1, publishedAt)
    }

    ghost predicate Caught()
      reads this
      requires |logs| == |cursors| == |positions| == |marks| == n
    {
      && (forall s :: 0 <= s < n ==> InOrder(cursors[s], positions[s], marks[s], reportsStart))
      && AllFollow(scope, logs, entries, offsets, readAt, marks)
      && Scoped(entries)
    }

    ghost predicate Scoped(entries: Entries<T, V>) {
      forall t :: t in entries ==> scope.inScope(t) && scope.streamOf(t) < n
    }

    /** The entries of a rebuild are those in scope, each read behind its
        stream's head, which no cursor is past. */
    ghost predicate HonestBoot(logs: seq<Log<T, V>>, boot: Boot<T, V>, cursors: seq<nat>) {
      && |boot.heads| == |cursors| == |logs| == n
      && (forall s :: 0 <= s < n ==> cursors[s] <= boot.heads[s])
      && Scoped(boot.entries)
      && ReadsBack(logs, boot)
    }

    ghost predicate ReadsBack(logs: seq<Log<T, V>>, boot: Boot<T, V>)
      requires |boot.heads| == |logs| == n
    {
      forall s, t :: 0 <= s < n && scope.Keeps(t, s) ==>
        SnapshotOf(logs[s], boot.entries, OffsetsOf(boot.entries), boot.heads[s], boot.readAt(t), t)
    }

    /** The node keeps its contract throughout a round. */
    ghost predicate HonestRound(logs: seq<Log<T, V>>, round: Round<T, V>)
      requires |logs| == n
    {
      && (forall cs :: |cs| == n && round.boot(cs).Some? ==> HonestBoot(logs, round.boot(cs).value, cs))
      && (forall s, k, from :: 0 <= s < n && from > 0 && round.fetch(s, k, from).Some? ==>
        HonestPage(logs, s, from, round.fetch(s, k, from).value))
    }

    ghost predicate HonestPage(logs: seq<Log<T, V>>, s: nat, from: nat, page: Page<Write<T, V>>)
      requires s < |logs|
    {
      IsPage(logs[s], filter, from, page) && (page.start.Some? <==> reportsStart)
    }

    /** Move every cursor to the head its stream was read at. */
    method AckHeads(boot: Boot<T, V>) returns (ok: bool)
      requires |boot.heads| == |cursors| == n
      modifies this`cursors
      ensures |cursors| == n && forall s :: 0 <= s < n ==> cursors[s] in {old(cursors)[s], boot.heads[s]}
      ensures ok && (forall s :: 0 <= s < n ==> old(cursors)[s] <= boot.heads[s]) ==> cursors == boot.heads
      ensures (forall s :: 0 <= s < n ==> boot.heads[s] == 0 || boot.ack(s).Taken?) ==> ok
    {
      for s := 0 to n
        invariant |cursors| == n && forall i :: 0 <= i < n ==> cursors[i] in {old(cursors)[i], boot.heads[i]}
        invariant forall i :: 0 <= i < s && old(cursors)[i] <= boot.heads[i] ==> cursors[i] == boot.heads[i]
      {
        if boot.heads[s] > 0 {
          if !boot.ack(s).Refused? { cursors := cursors[s := boot.heads[s]]; }
          if !boot.ack(s).Taken? { return false; }
        }
      }
      return true;
    }

    /** A view follows every stream from its rebuild on. */
    lemma Booted(boot: Boot<T, V>, marks: seq<Mark>)
      requires |boot.heads| == |logs| == |marks| == n && ReadsBack(logs, boot)
      requires forall s :: 0 <= s < n ==> IsLog(logs[s]) && marks[s] == Mark(boot.heads[s], boot.heads[s], false, false)
      ensures AllFollow(scope, logs, boot.entries, OffsetsOf(boot.entries), boot.readAt, marks)
    {
      forall s | 0 <= s < n ensures Follows(scope, logs, boot.entries, OffsetsOf(boot.entries), boot.readAt, marks, s) {
        TracksSnapshot(scope, s, logs[s], boot.entries, OffsetsOf(boot.entries), boot.heads[s], boot.readAt);
      }
    }

    /** Rebuild from a snapshot; an acknowledgement that raises ends it with
        the entries set and nothing else. */
    method Bootstrap(boot: Boot<T, V>) returns (ok: bool)
      requires Valid() && !initialized && HonestBoot(logs, boot, cursors)
      modifies this
      ensures Valid() && logs == old(logs) && available == old(available) && history == old(history)
      ensures ok ==> initialized && revision == old(revision) + 1
      ensures entries == boot.entries && (ok ==> cursors == positions == boot.heads && marks == Fresh(boot.heads))
      ensures (forall s :: 0 <= s < n ==> boot.heads[s] == 0 || boot.ack(s).Taken?) ==> ok
      ensures !ok ==> !initialized && revision == old(revision)
      ensures forall s :: 0 <= s < n ==> cursors[s] in {old(cursors)[s], boot.heads[s]}
    {
      ConsistentChanged(history, revision, false, entries, revision, false, boot.entries);
      entries, offsets := boot.entries, OffsetsOf(boot.entries);
      ok := AckHeads(boot);
      if ok { Adopt(boot); }
    }

    /** The rebuild is the view's state from here on. */
    method Adopt(boot: Boot<T, V>)
      requires Valid() && !initialized && HonestBoot(logs, boot, cursors) && cursors == boot.heads
      requires entries == boot.entries && offsets == OffsetsOf(boot.entries)
      modifies this`positions, this`initialized, this`revision, this`readAt, this`marks
      ensures Valid() && initialized && revision == old(revision) + 1
      ensures positions == boot.heads && marks == Fresh(boot.heads)
    {
      ConsistentChanged(history, revision, false, entries, revision + 1, true, entries);
      positions, initialized, revision := boot.heads, true, revision + 1;
      readAt, marks := boot.readAt, Fresh(boot.heads);
      Booted(boot, marks);
    }

    /** Apply one record of a page, unless it is out of scope or not newer than
        what is held for its topic. */
    method ApplyRecord(s: nat, r: Record<Write<T, V>>)
      requires Valid() && initialized && s < n && !marks[s].lost && marks[s].behind
      requires r in logs[s] && cursors[s] < r.offset && NothingKept(logs[s], filter, marks[s].applied, r.offset - 1)
      modifies this`entries, this`offsets, this`revision, this`marks
      ensures Valid() && revision >= old(revision)
      ensures marks == Moved(old(marks), s, r.offset)
    {
      ghost var before := marks;
      FollowsApplied(scope, filter, logs, entries, offsets, readAt, before, s, r);
      marks := Moved(before, s, r.offset);
      var t := r.body.topic;
      assert r.offset > SlotOf(entries, offsets, t).offset <==> !(t in offsets && r.offset <= offsets[t]);
      if !scope.inScope(t) { return; }
      if t in offsets && r.offset <= offsets[t] { return; }
      ConsistentChanged(history, revision, true, entries, revision + 1, true, Put(entries, r));
      offsets, revision := offsets[t := r.offset], revision + 1;
      entries := Put(entries, r);
    }

    /** The next record of a page. */
    method ApplyNext(s: nat, page: Page<Write<T, V>>, k: nat, ghost before: seq<Mark>)
      requires Valid() && initialized && s < n && |before| == n && !before[s].lost && before[s].behind
      requires IsPage(logs[s], filter, cursors[s] + 1, page) && page.gap.None? && k < |page.records|
      requires marks == if k == 0 then before else Moved(before, s, page.records[k - 1].offset)
      modifies this`entries, this`offsets, this`revision, this`marks
      ensures Valid() && revision >= old(revision) && marks == Moved(before, s, page.records[k].offset)
    {
      PageIsWhole(logs[s], filter, cursors[s], page, k, marks[s].applied);
      PageOrder(logs[s], filter, cursors[s], page, k);
      ApplyRecord(s, page.records[k]);
    }

    /** Apply the records of a page, in order. */
    method ApplyPage(s: nat, page: Page<Write<T, V>>)
      requires Valid() && initialized && s < n && !marks[s].lost && marks[s].behind
      requires IsPage(logs[s], filter, cursors[s] + 1, page) && page.gap.None?
      modifies this`entries, this`offsets, this`revision, this`marks
      ensures Valid() && revision >= old(revision)
      ensures marks == Moved(old(marks), s, page.next - 1)
    {
      ghost var before := marks;
      for k := 0 to |page.records|
        invariant Valid() && revision >= old(revision)
        invariant marks == if k == 0 then before else Moved(before, s, page.records[k - 1].offset)
      {
        ApplyNext(s, page, k, before);
      }
      EndPage(s, page, before);
    }

    /** Past the last record of a page there is nothing up to where it ends. */
    ghost method EndPage(s: nat, page: Page<Write<T, V>>, before: seq<Mark>)
      requires Valid() && initialized && s < n && |before| == n && !before[s].lost && before[s].behind
      requires IsPage(logs[s], filter, cursors[s] + 1, page) && page.gap.None?
      requires marks == if page.records == [] then before else Moved(before, s, page.records[|page.records| - 1].offset)
      modifies this`marks
      ensures Valid() && marks == Moved(before, s, page.next - 1)
    {
      PageIsWhole(logs[s], filter, cursors[s], page, |page.records|, marks[s].applied);
      PageOrder(logs[s], filter, cursors[s], page, |page.records|);
      if page.records != [] { MovedTwice(before, s, page.records[|page.records| - 1].offset, page.next - 1); }
      MoveTo(s, page.next - 1);
    }

    /** A stream is applied to an offset up to which there is nothing more. */
    ghost method MoveTo(s: nat, upto: nat)
      requires Valid() && initialized && s < n && !marks[s].lost && marks[s].behind
      requires NothingKept(logs[s], filter, marks[s].applied, upto)
      modifies this`marks
      ensures Valid() && marks == Moved(old(marks), s, upto)
    {
      FollowsOn(scope, filter, logs, entries, offsets, readAt, marks, s, upto);
      marks := Moved(marks, s, upto);
    }

    /** Say whether all that was applied of a stream is acknowledged. */
    ghost method SetBehind(s: nat, behind: bool)
      requires Valid() && initialized && s < n
      requires InOrder(cursors[s], positions[s], marks[s].(behind := behind), reportsStart)
      modifies this`marks
      ensures Valid() && marks == old(marks)[s := old(marks)[s].(behind := behind)]
    {
      FollowsStill(scope, logs, entries, offsets, readAt, marks, s, behind);
      marks := marks[s := marks[s].(behind := behind)];
    }

    /** Acknowledge a page that was applied: its stream moves to its end. */
    method AckPage(s: nat, upto: nat, reply: Reply, ghost was: bool) returns (ok: bool)
      requires Valid() && initialized && s < n && !marks[s].lost && marks[s].behind
      requires cursors[s] < upto <= marks[s].applied && (!was && reportsStart ==> upto == marks[s].applied)
      modifies this`cursors, this`positions, this`marks
      ensures Valid() && marks == old(marks)[s := old(marks)[s].(behind := if ok then was else true)]
      ensures ok ==> positions == old(positions)[s := upto] && cursors == old(cursors)[s := upto]
      ensures !ok ==> positions == old(positions) && cursors == old(cursors)[s := cursors[s]]
      ensures ok <==> reply.Taken?
    {
      if !reply.Refused? { cursors := cursors[s := upto]; }
      if !reply.Taken? { return false; }
      positions := positions[s := upto];
      SetBehind(s, was);
      return true;
    }

    /** Nothing was left to read of a stream. */
    method AtHead(s: nat, page: Page<Write<T, V>>, head: nat, ghost was: bool) returns (end: Ending)
      requires Valid() && initialized && s < n && !marks[s].lost
      requires HonestPage(logs, s, cursors[s] + 1, page) && page.AckOffset().None?
      requires page.next - 1 <= marks[s].applied && marks[s].behind && page.next - 1 >= cursors[s]
      requires !was && reportsStart ==> positions[s] == cursors[s] == marks[s].applied
      modifies this`positions, this`marks
      ensures Valid() && marks == old(marks)[s := old(marks)[s].(behind := was)] && !end.Rebuild?
      ensures |positions| == n && positions == old(positions)[s := positions[s]] && positions[s] >= old(positions)[s]
      ensures end == if page.next > head then Complete else Raised
      ensures end.Complete? ==> positions[s] >= head && (Lags(s) ==> old(Lags(s)))
    {
      if page.next > head && page.next - 1 > positions[s] { positions := positions[s := page.next - 1]; }
      SetBehind(s, was);
      return if page.next <= head then Raised else Complete;
    }

    /** One page of a stream: none when the drain goes on behind it. */
    method DrainPage(s: nat, page: Page<Write<T, V>>, head: nat, reply: Reply) returns (end: Option<Ending>)
      requires Valid() && initialized && s < n && !marks[s].lost
      requires HonestPage(logs, s, cursors[s] + 1, page) && page.gap.None?
      modifies this`entries, this`offsets, this`revision, this`marks, this`cursors, this`positions
      ensures Valid() && revision >= old(revision) && end != Some(Rebuild)
      ensures SameLost(old(marks))
      ensures |positions| == n && positions == old(positions)[s := positions[s]]
      ensures end == Some(Complete) ==> positions[s] >= head
      ensures end.None? ==> old(cursors)[s] < cursors[s] < head
      ensures end == Some(Raised) <==> if page.AckOffset().None? then page.next <= head else !reply.Taken?
      ensures cursors == old(cursors)[s := cursors[s]]
      ensures end == Some(Complete) || end.None? ==> (Lags(s) ==> old(Lags(s)))
    {
      ghost var was := marks[s].behind;
      SetBehind(s, true);
      AckEnds(logs[s], filter, cursors[s], page);
      ApplyPage(s, page);
      end := EndPageAt(s, page, head, reply, was);
    }

    /** Acknowledge a page that was applied, or find that there was nothing. */
    method EndPageAt(s: nat, page: Page<Write<T, V>>, head: nat, reply: Reply, ghost was: bool)
      returns (end: Option<Ending>)
      requires Valid() && initialized && s < n && !marks[s].lost
      requires HonestPage(logs, s, cursors[s] + 1, page) && page.gap.None?
      requires marks[s].behind && page.next - 1 <= marks[s].applied
      requires !was && reportsStart ==> positions[s] == cursors[s] && marks[s].applied == Max(cursors[s], page.next - 1)
      modifies this`marks, this`cursors, this`positions
      ensures Valid() && end != Some(Rebuild) && SameLost(old(marks))
      ensures |positions| == n && positions == old(positions)[s := positions[s]]
      ensures end == Some(Complete) ==> positions[s] >= head
      ensures end.None? ==> old(cursors)[s] < cursors[s] < head
      ensures end == Some(Raised) <==> if page.AckOffset().None? then page.next <= head else !reply.Taken?
      ensures cursors == old(cursors)[s := cursors[s]]
      ensures end == Some(Complete) || end.None? ==> (Lags(s) ==> old(Lags(s)))
    {
      AckEnds(logs[s], filter, cursors[s], page);
      if page.AckOffset().None? {
        var ended := AtHead(s, page, head, was);
        return Some(ended);
      }
      var ok := AckPage(s, page.next - 1, reply, was);
      return if !ok then Some(Raised) else if page.next > head then Some(Complete) else None;
    }

    ghost predicate SameLost(marks': seq<Mark>)
      reads this`marks
    {
      |marks| == |marks'| && forall s :: 0 <= s < |marks| ==> marks[s].lost == marks'[s].lost
    }

    /** Find that a stream cannot be followed from here. */
    method GiveUp()
      requires Valid()
      modifies this`initialized
      ensures Valid() && !initialized
    {
      ConsistentChanged(history, revision, initialized, entries, revision, false, entries);
      initialized := false;
    }

    /** The cursor is behind what the view was acknowledged, on a node that says
        where a page starts: the node lost records, and a rebuild is due. */
    predicate Lags(s: nat)
      requires s < |cursors| && s < |positions|
      reads this`cursors, this`positions
    {
      reportsStart && cursors[s] < positions[s]
    }

    /** The node answers every read of a stream with a page that moves on or
        finds the head, and takes every acknowledgement. */
    ghost predicate Answers(s: nat, head: nat, round: Round<T, V>) {
      forall k: nat, from: nat {:trigger round.fetch(s, k, from)} :: from > 0 ==>
        && round.fetch(s, k, from).Some? && round.ack(s, k).Taken?
        && (round.fetch(s, k, from).value.AckOffset().Some? || round.fetch(s, k, from).value.next > head)
    }

    /** No page of a stream has a gap. */
    ghost predicate Gapless(s: nat, round: Round<T, V>) {
      forall k: nat, from: nat {:trigger round.fetch(s, k, from)} ::
        round.fetch(s, k, from).Some? ==> round.fetch(s, k, from).value.gap.None?
    }

    /** Take a page, unless the stream cannot be followed from here: a first
        page that starts below what was acknowledged, or a gap. */
    method TakePage(s: nat, page: Page<Write<T, V>>, head: nat, first: bool, reply: Reply) returns (end: Option<Ending>)
      requires Valid() && initialized && s < n && HonestPage(logs, s, cursors[s] + 1, page)
      requires !first ==> !marks[s].lost
      modifies this`entries, this`offsets, this`revision, this`marks, this`cursors, this`positions, this`initialized
      ensures Valid() && revision >= old(revision) && (initialized <==> end != Some(Rebuild))
      ensures |positions| == n && positions == old(positions)[s := positions[s]]
      ensures end != Some(Rebuild) ==> SameLost(old(marks)) && !marks[s].lost
      ensures end == Some(Complete) ==> positions[s] >= head
      ensures end.None? ==> old(cursors)[s] < cursors[s] < head
      ensures end == Some(Rebuild) <==> page.gap.Some? || (first && old(Lags(s)))
      ensures end == Some(Raised) ==> if page.AckOffset().None? then page.next <= head else !reply.Taken?
      ensures cursors == old(cursors)[s := cursors[s]]
      ensures end == Some(Complete) || end.None? ==> (Lags(s) ==> old(Lags(s)))
    {
      if page.gap.Some? || (first && page.start.Some? && page.start.value - 1 < positions[s]) {
        GiveUp();
        return Some(Rebuild);
      }
      end := DrainPage(s, page, head, reply);
    }

    /** Drain one stream to `head`. A page that starts below what was applied,
        or that has a gap, means a rebuild. */
    method DrainStream(s: nat, head: nat, round: Round<T, V>) returns (end: Ending)
      requires Valid() && initialized && s < n && HonestRound(logs, round)
      modifies this`entries, this`offsets, this`revision, this`marks, this`cursors, this`positions, this`initialized
      ensures Valid() && revision >= old(revision) && (initialized <==> !end.Rebuild?)
      ensures |positions| == n && positions == old(positions)[s := positions[s]]
      ensures end.Complete? ==> positions[s] >= head && SameLost(old(marks))
      ensures cursors == old(cursors)[s := cursors[s]]
      ensures end.Complete? ==> (Lags(s) ==> old(Lags(s)))
      ensures Answers(s, head, round) ==> !end.Raised?
      ensures Gapless(s, round) && !old(Lags(s)) ==> !end.Rebuild?
    {
      var k, first := 0, true;
      while true
        invariant Valid() && initialized && revision >= old(revision)
        invariant |positions| == n && positions == old(positions)[s := positions[s]]
        invariant cursors == old(cursors)[s := cursors[s]]
        invariant SameLost(old(marks)) && (!first ==> !marks[s].lost && cursors[s] < head)
        invariant Lags(s) ==> old(Lags(s))
        decreases head - cursors[s], if first then 1 else 0
      {
        var ended := DrainNext(s, k, head, first, round);
        if ended.Some? { return ended.value; }
        k, first := k + 1, false;
      }
    }

    /** The next page of a drain: none when it goes on behind it. */
    method DrainNext(s: nat, k: nat, head: nat, first: bool, round: Round<T, V>) returns (end: Option<Ending>)
      requires Valid() && initialized && s < n && HonestRound(logs, round) && (!first ==> !marks[s].lost)
      modifies this`entries, this`offsets, this`revision, this`marks, this`cursors, this`positions, this`initialized
      ensures Valid() && revision >= old(revision) && (initialized <==> end != Some(Rebuild))
      ensures |positions| == n && positions == old(positions)[s := positions[s]]
      ensures cursors == old(cursors)[s := cursors[s]]
      ensures end.None? || end == Some(Complete) ==> SameLost(old(marks)) && !marks[s].lost
      ensures end.None? || end == Some(Complete) ==> (Lags(s) ==> old(Lags(s)))
      ensures end == Some(Complete) ==> positions[s] >= head
      ensures end.None? ==> old(cursors)[s] < cursors[s] < head
      ensures Answers(s, head, round) ==> end != Some(Raised)
      ensures Gapless(s, round) && !(first && old(Lags(s))) ==> end != Some(Rebuild)
    {
      var answer := round.fetch(s, k, cursors[s] + 1);
      if answer.None? { return Some(Raised); }
      assert HonestPage(logs, s, cursors[s] + 1, answer.value);
      end := TakePage(s, answer.value, head, first, round.ack(s, k));
    }

    /** One stream of a round: its head is read, and it is drained unless its
        hint says that it is there already. */
    method VisitStream(s: nat, round: Round<T, V>) returns (end: Ending)
      requires Valid() && initialized && s < n && HonestRound(logs, round)
      modifies this`entries, this`offsets, this`revision, this`marks, this`cursors, this`positions, this`initialized
      ensures Valid() && revision >= old(revision) && (initialized <==> !end.Rebuild?)
      ensures |positions| == n && positions == old(positions)[s := positions[s]]
      ensures end.Complete? ==> ReachedBy(round, positions, s)
      ensures cursors == old(cursors)[s := cursors[s]] && (end.Complete? ==> (Lags(s) ==> old(Lags(s))))
      ensures Serves(s, round) ==> !end.Raised?
      ensures Gapless(s, round) && !old(Lags(s)) ==> !end.Rebuild?
    {
      if round.head(s).None? { return Raised; }
      if round.hinted(s) && round.head(s).value <= positions[s] { return Complete; }
      end := DrainStream(s, round.head(s).value, round);
    }

    /** The head of a stream can be read, and all there is up to it. */
    ghost predicate Serves(s: nat, round: Round<T, V>) {
      round.head(s).Some? && Answers(s, round.head(s).value, round)
    }

    /** The node serves every stream in a round, and a rebuild. */
    ghost predicate ServesAll(round: Round<T, V>) {
      && (forall s :: 0 <= s < n ==> Serves(s, round))
      && forall cs :: |cs| == n ==>
        round.boot(cs).Some? && forall s :: 0 <= s < n ==> round.boot(cs).value.ack(s).Taken?
    }

    ghost predicate AllGapless(round: Round<T, V>) {
      forall s :: 0 <= s < n ==> Gapless(s, round)
    }

    /** No stream of these lags. */
    ghost predicate NoneLags(selected: seq<nat>)
      requires |cursors| == |positions| == n
      reads this`cursors, this`positions
    {
      forall i :: 0 <= i < |selected| && selected[i] < n ==> !Lags(selected[i])
    }

    /** Everything that was read to, was reached. */
    ghost predicate Reached(selected: seq<nat>, round: Round<T, V>)
      requires |positions| == n && forall i :: 0 <= i < |selected| ==> selected[i] < n
      reads this`positions
    {
      forall i :: 0 <= i < |selected| ==> ReachedBy(round, positions, selected[i])
    }

    static predicate ReachedBy(round: Round<T, V>, positions: seq<nat>, s: nat) {
      s < |positions| && round.head(s).Some? && positions[s] >= round.head(s).value
    }

    /** Rebuild if need be; a rebuild reads every stream. */
    method Prepare(wanted: seq<nat>, round: Round<T, V>) returns (selected: seq<nat>, ready: bool)
      requires Valid() && HonestRound(logs, round) && forall i :: 0 <= i < |wanted| ==> wanted[i] < n
      modifies this
      ensures Valid() && revision >= old(revision) && logs == old(logs)
      ensures history == old(history) && available == old(available)
      ensures forall i :: 0 <= i < |selected| ==> selected[i] < n
      ensures selected == wanted || forall s :: 0 <= s < n ==> s in selected
      ensures ready ==> initialized
      ensures ServesAll(round) ==> ready
      ensures !old(initialized) && ready ==> NoneLags(selected)
    {
      if initialized { return wanted, true; }
      selected := seq(n, s requires 0 <= s < n => s as nat);
      forall s | 0 <= s < n ensures s in selected { assert selected[s] == s; }
      var boot := round.boot(cursors);
      if boot.None? { return selected, false; }
      ready := Bootstrap(boot.value);
    }

    /** One round: rebuild if need be, then drain every stream that has to be.
        A rebuild reads every stream. */
    method RunRound(wanted: seq<nat>, round: Round<T, V>) returns (selected: seq<nat>, end: Ending)
      requires Valid() && HonestRound(logs, round) && forall i :: 0 <= i < |wanted| ==> wanted[i] < n
      modifies this
      ensures Valid() && revision >= old(revision) && logs == old(logs)
      ensures history == old(history) && available == old(available)
      ensures forall i :: 0 <= i < |selected| ==> selected[i] < n
      ensures selected == wanted || forall s :: 0 <= s < n ==> s in selected
      ensures end.Complete? ==> initialized && Reached(selected, round)
      ensures end.Rebuild? ==> !initialized
      ensures ServesAll(round) ==> !end.Raised?
      ensures ServesAll(round) && AllGapless(round) && !old(initialized) ==> end.Complete?
    {
      var ready;
      selected, ready := Prepare(wanted, round);
      if !ready { return selected, Raised; }
      end := VisitAll(selected, round);
    }

    /** Draining one stream takes no other one back. */
    static lemma StillReached(round: Round<T, V>, before: seq<nat>, after: seq<nat>, selected: seq<nat>, i: nat)
      requires i < |selected| && |after| == |before| && forall j :: 0 <= j < i ==> ReachedBy(round, before, selected[j])
      requires selected[i] < |before| && after == before[selected[i] := after[selected[i]]]
      requires ReachedBy(round, after, selected[i])
      ensures forall j :: 0 <= j <= i ==> ReachedBy(round, after, selected[j])
    {
      forall j | 0 <= j <= i ensures ReachedBy(round, after, selected[j]) {
        assert j < i ==> ReachedBy(round, before, selected[j]);
      }
    }

    /** The streams of a round, one after the other. */
    method VisitAll(selected: seq<nat>, round: Round<T, V>) returns (end: Ending)
      requires Valid() && initialized && HonestRound(logs, round) && forall i :: 0 <= i < |selected| ==> selected[i] < n
      modifies this`entries, this`offsets, this`revision, this`marks, this`cursors, this`positions, this`initialized
      ensures Valid() && revision >= old(revision)
      ensures end.Complete? ==> initialized && Reached(selected, round)
      ensures end.Rebuild? ==> !initialized
      ensures ServesAll(round) ==> !end.Raised?
      ensures AllGapless(round) && old(NoneLags(selected)) ==> !end.Rebuild?
    {
      for i := 0 to |selected|
        invariant Valid() && initialized && revision >= old(revision)
        invariant old(NoneLags(selected)) ==> NoneLags(selected)
        invariant forall j :: 0 <= j < i ==> ReachedBy(round, positions, selected[j])
      {
        ghost var before := positions;
        end := VisitStream(selected[i], round);
        if !end.Complete? { return; }
        StillReached(round, before, positions, selected, i);
      }
      end := Complete;
    }

    /** What the view holds shows every stream where it is applied to. */
    lemma HoldsShow()
      requires Valid() && initialized
      ensures AllShow(scope, logs, entries, HeldAt(marks))
    {
      forall s | 0 <= s < n && !marks[s].lost ensures ShowsSince(scope, s, logs[s], entries, marks[s].applied) {
        forall t | scope.Keeps(t, s) ensures HadSince(logs[s], t, marks[s].applied, Get(entries, t)) {
          ShowsState(s, t);
          assert Get(entries, t) in {StateAt(logs[s], t, marks[s].applied), StateAt(logs[s], t, readAt(t))};
        }
      }
    }

    /** Publish what the view holds, unless it is published already. */
    method Publish()
      requires Valid() && initialized
      modifies this`available, this`revision, this`published, this`history, this`publishedAt
      ensures Valid() && available && published == Some((revision, entries)) && old(history) <= history
      ensures publishedAt == HeldAt(marks)
    {
      HoldsShow();
      publishedAt := HeldAt(marks);
      if !available {
        ConsistentChanged(history, revision, true, entries, revision + 1, true, entries);
        revision, available := revision + 1, true;
      }
      if published.None? || published.value.0 != revision {
        ConsistentPublished(history, revision, entries);
        published, history := Some((revision, entries)), history + [(revision, entries)];
      } else {
        assert Published(history[|history| - 1], revision, true, entries);
      }
    }

    /** The node serves two rounds, the second without a gap: a first one that
        finds records lost is followed by a rebuild. */
    ghost predicate ServedBy(first: Round<T, V>, second: Round<T, V>) {
      ServesAll(first) && ServesAll(second) && AllGapless(second)
    }

    ghost predicate ServedTwice(rounds: nat -> Round<T, V>) { ServedBy(rounds(0), rounds(1)) }

    /** Flush what is available and publish it: after it completed, what is
        published is what the view holds, up to every head that was read. It
        does complete where the node serves two rounds. */
    method Snapshot(wanted: seq<nat>, rounds: nat -> Round<T, V>) returns (ok: bool, used: nat)
      requires Valid() && (forall i :: 0 <= i < |wanted| ==> wanted[i] < n) && forall k :: HonestRound(logs, rounds(k))
      modifies this
      ensures Valid() && logs == old(logs) && old(history) <= history
      ensures ok ==> initialized && available && published == Some((revision, entries)) && Reached(wanted, rounds(used))
      ensures ServedTwice(rounds) ==> ok
    {
      var selected: seq<nat> := wanted;
      for k := 0 to 3
        invariant Valid() && logs == old(logs) && history == old(history)
        invariant forall k' :: HonestRound(logs, rounds(k'))
        invariant forall i :: 0 <= i < |selected| ==> selected[i] < n
        invariant selected == wanted || forall s :: 0 <= s < n ==> s in selected
        invariant k > 0 ==> !initialized
        invariant k > 1 ==> !ServedTwice(rounds)
      {
        var end;
        selected, end := RunRound(selected, rounds(k));
        if end.Raised? { return false, k; }
        if end.Complete? {
          StillWanted(wanted, selected, rounds(k));
          Publish();
          return true, k;
        }
      }
      return false, 3;
    }

    /** What reached every stream reached those that were wanted. */
    lemma StillWanted(wanted: seq<nat>, selected: seq<nat>, round: Round<T, V>)
      requires |positions| == n && (forall i :: 0 <= i < |wanted| ==> wanted[i] < n)
      requires (forall i :: 0 <= i < |selected| ==> selected[i] < n) && Reached(selected, round)
      requires selected == wanted || forall s :: 0 <= s < n ==> s in selected
      ensures Reached(wanted, round)
    {
      forall i | 0 <= i < |wanted| ensures ReachedBy(round, positions, wanted[i]) { assert wanted[i] in selected; }
    }

    /** What a topic shows. Once its stream is applied to where its snapshot
        was read, that is its last write there; before, a state it had where
        the stream is applied to or when it was read. Without a failed
        acknowledgement the stream is applied to its position. */
    lemma ShowsState(s: nat, t: T)
      requires Valid() && initialized && s < n && !marks[s].lost && scope.Keeps(t, s)
      ensures var m, shown := marks[s], Get(entries, t);
        && (m.applied >= readAt(t) ==> shown == StateAt(logs[s], t, m.applied))
        && (m.applied < readAt(t) ==> shown in {StateAt(logs[s], t, m.applied), StateAt(logs[s], t, readAt(t))})
        && (reportsStart && !m.behind ==> m.applied == positions[s])
    {
      assert Follows(scope, logs, entries, offsets, readAt, marks, s);
      assert Holds(scope, s, logs[s], entries, offsets, marks[s].head, readAt, marks[s].applied, t);
      assert SlotOf(entries, offsets, t).entry == Get(entries, t);
      Converges(logs[s], t, marks[s].head, readAt(t), marks[s].applied);
    }

    /** A stream that is applied to where all its topics were read shows
        exactly the plain fold of everything in scope up to there. */
    lemma ShowsFold(s: nat)
      requires Valid() && initialized && s < n && !marks[s].lost
      requires forall t :: scope.Keeps(t, s) ==> readAt(t) <= marks[s].applied
      ensures forall t :: scope.streamOf(t) == s ==>
        Get(entries, t) == Get(Fold(logs[s], scope.inScope, marks[s].applied), t)
    {
      forall t | scope.streamOf(t) == s
        ensures Get(entries, t) == Get(Fold(logs[s], scope.inScope, marks[s].applied), t)
      {
        FoldIsState(logs[s], scope.inScope, marks[s].applied, t);
        if scope.inScope(t) { ShowsState(s, t); }
      }
    }

    /** A view of one stream is the fold. */
    lemma IsFold()
      requires Valid() && initialized && n == 1 && !marks[0].lost && forall t :: scope.streamOf(t) == 0
      requires forall t :: scope.inScope(t) ==> readAt(t) <= marks[0].applied
      ensures entries == Fold(logs[0], scope.inScope, marks[0].applied)
    {
      ShowsFold(0);
      var fold := Fold(logs[0], scope.inScope, marks[0].applied);
      forall t ensures (t in entries <==> t in fold) && (t in entries ==> entries[t] == fold[t]) {
        assert scope.streamOf(t) == 0;
        assert Get(entries, t) == Get(fold, t);
      }
    }

    /** What `wait_caught_up` returns. */
    predicate CaughtUp(heads: seq<nat>)
      requires |heads| == |positions|
      reads this`positions
    {
      forall s :: 0 <= s < |heads| ==> positions[s] >= heads[s]
    }

    /** Once the view is caught up with `heads` and its last drain completed,
        what is read next holds, for every topic, a state at or behind its head. */
    lemma CaughtUpReads(heads: seq<nat>, s: nat, t: T)
      requires Valid() && initialized && |heads| == n && CaughtUp(heads)
      requires published.Some? && published.value.0 == revision
      requires s < n && !marks[s].lost && scope.Keeps(t, s)
      ensures published.value.1 == entries && HadSince(logs[s], t, heads[s], Get(published.value.1, t))
    {
      assert Published(history[|history| - 1], revision, true, entries);
      ShowsState(s, t);
      assert marks[s].applied >= heads[s];
      if Get(entries, t) == StateAt(logs[s], t, marks[s].applied) {
        assert HadSince(logs[s], t, heads[s], Get(entries, t));
      }
    }

    /** What is read next holds, for a topic, a state at or behind a head,
        exactly when nothing written to the topic by the head changes what is
        shown from there on; none does when it was swapped in with the topic's
        stream applied to the head. */
    lemma ReadsCoverExactly(head: nat, s: nat, t: T)
      requires Valid() && published.Some? && s < n && publishedAt[s].Some? && scope.Keeps(t, s)
      ensures HadSince(logs[s], t, head, Get(published.value.1, t)) <==>
        StillShows(logs[s], t, head, Get(published.value.1, t))
      ensures publishedAt[s].value >= head ==> HadSince(logs[s], t, head, Get(published.value.1, t))
    {
      var state := Get(published.value.1, t);
      assert ShowsSince(scope, s, logs[s], published.value.1, publishedAt[s].value);
      var u: nat :| u >= publishedAt[s].value && state == StateAt(logs[s], t, u);
      HadSinceExactly(logs[s], t, u, head);
    }

    /** Readers who saw the same revision saw the same entries. */
    lemma EqualRevisionsEqualEntries(i: nat, j: nat)
      requires Valid() && i < |history| && j < |history| && history[i].0 == history[j].0
      ensures history[i].1 == history[j].1
    {
      assert i < j ==> Agree(history[i], history[j]);
      assert j < i ==> Agree(history[j], history[i]);
    }

    /** The view says that it is unavailable. */
    method Unavailable()
      requires Valid()
      modifies this`available, this`revision
      ensures Valid() && !available && revision == if old(available) then old(revision) + 1 else old(revision)
    {
      if available {
        ConsistentChanged(history, revision, initialized, entries, revision + 1, initialized, entries);
        available, revision := false, revision + 1;
      }
    }

    /** The node is reset or restored: a stream of its is another one, and
        acknowledged records of it are gone. */
    method NodeRestored(s: nat, log: Log<T, V>, cursor: nat)
      requires Valid() && s < n && IsStream(scope, filter, s, log)
      requires initialized ==> reportsStart && cursor < positions[s]
      modifies this`logs, this`cursors, this`marks, this`publishedAt
      ensures Valid() && logs == old(logs)[s := log]
      ensures published.Some? ==> publishedAt == old(publishedAt)[s := None]
    {
      if published.Some? {
        publishedAt := publishedAt[s := None];
        forall i | 0 <= i < n && publishedAt[i].Some? ensures i != s {}
      }
      if initialized { FollowsNothing(scope, logs, entries, offsets, readAt, marks, s, log); }
      logs, cursors, marks := logs[s := log], cursors[s := cursor], marks[s := marks[s].(lost := true)];
    }

    /** The node answers every round of a flush by the logs that it has then. */
    ghost predicate Honest(event: ViewEvent<T, V>) {
      event.Flush? ==> forall logs, k :: |logs| == n ==> HonestRound(logs, event.rounds(logs, k))
    }

    ghost function Now(): Standing<T, V>
      reads this
    {
      Standing(logs, positions, initialized, available, revision, published)
    }

    /** What an event does, when it is possible; otherwise it does nothing. A
        flush completes where the node serves two rounds, and then the view is
        available and its streams that were asked for reached their heads. */
    ghost predicate Did(a: Standing<T, V>, event: ViewEvent<T, V>, ok: bool, b: Standing<T, V>) {
      match event
      case Flush(wanted, rounds) =>
        if exists i :: 0 <= i < |wanted| && wanted[i] >= n then b == a && !ok
        else
          && b.logs == a.logs
          && (ServedBy(rounds(a.logs, 0), rounds(a.logs, 1)) ==> ok)
          && (ok ==> b.initialized && b.available && b.published.Some? && b.published.value.0 == b.revision)
          && (ok ==> exists k :: ReachedIn(wanted, rounds(a.logs, k), b.positions))
      case Fails => !ok && b == a.(available := false, revision := if a.available then a.revision + 1 else a.revision)
      case Restored(s, log, cursor) =>
        && !ok && |a.logs| == |a.positions| == n
        && b == if s < n && (!a.initialized || (reportsStart && cursor < a.positions[s]))
                then a.(logs := a.logs[s := log]) else a
    }

    static ghost predicate ReachedIn(wanted: seq<nat>, round: Round<T, V>, positions: seq<nat>) {
      forall i :: 0 <= i < |wanted| ==> ReachedBy(round, positions, wanted[i])
    }

    /** Each of the first so many events did what it is for. */
    ghost predicate IsPath(path: seq<Standing<T, V>>, script: seq<ViewEvent<T, V>>, oks: seq<bool>, k: nat) {
      && k <= |script| && |oks| == k && |path| == k + 1
      && forall i :: 0 <= i < k ==> Did(path[i], script[i], oks[i], path[i + 1])
    }

    lemma PathOn(path: seq<Standing<T, V>>, script: seq<ViewEvent<T, V>>, oks: seq<bool>, k: nat, ok: bool,
                 next: Standing<T, V>)
      requires k < |script| && IsPath(path, script, oks, k) && Did(path[k], script[k], ok, next)
      ensures IsPath(path + [next], script, oks + [ok], k + 1)
    {
    }

    /** One event, if it is possible: whether it was a flush that completed. */
    method Take(event: ViewEvent<T, V>) returns (ok: bool)
      requires Valid() && Honest(event) && (event.Restored? ==> IsStream(scope, filter, event.s, event.log))
      modifies this
      ensures Valid() && old(history) <= history && Did(old(Now()), event, ok, Now())
    {
      ok := false;
      match event
      case Flush(wanted, rounds) =>
        if forall i :: 0 <= i < |wanted| ==> wanted[i] < n { ok := TakeFlush(wanted, rounds); }
      case Fails => Unavailable();
      case Restored(s, log, cursor) =>
        if s < n && (!initialized || (reportsStart && cursor < positions[s])) { NodeRestored(s, log, cursor); }
    }

    method TakeFlush(wanted: seq<nat>, rounds: (seq<Log<T, V>>, nat) -> Round<T, V>) returns (ok: bool)
      requires Valid() && Honest(Flush(wanted, rounds)) && forall i :: 0 <= i < |wanted| ==> wanted[i] < n
      modifies this
      ensures Valid() && old(history) <= history && Did(old(Now()), Flush(wanted, rounds), ok, Now())
    {
      var now := logs;
      var used;
      assert forall k: nat :: HonestRound(now, rounds(now, k));
      ok, used := Snapshot(wanted, (k: nat) => rounds(now, k));
      assert ok ==> ReachedIn(wanted, rounds(now, used), positions);
    }

    /** Any life of a view: rebuilds, drains that end early or complete, restored
        nodes, and spells of unavailability. What readers were shown only grows,
        those who saw one revision saw the same entries, and what is published
        last shows for every topic a state it had where its stream was applied
        to when that was swapped in, or later. `path` is where the view stood
        before each event and behind the last. */
    method Run(script: seq<ViewEvent<T, V>>) returns (oks: seq<bool>, ghost path: seq<Standing<T, V>>)
      requires Valid() && forall i :: 0 <= i < |script| ==> Honest(script[i])
      requires forall i :: 0 <= i < |script| && script[i].Restored? ==>
        IsStream(scope, filter, script[i].s, script[i].log)
      modifies this
      ensures Valid() && old(history) <= history
      ensures forall i, j :: 0 <= i < |history| && 0 <= j < |history| && history[i].0 == history[j].0 ==>
        history[i] == history[j]
      ensures published.Some? ==> AllShow(scope, logs, published.value.1, publishedAt)
      ensures IsPath(path, script, oks, |script|) && path[0] == old(Now()) && path[|script|] == Now()
    {
      oks, path := [], [Now()];
      for i := 0 to |script|
        invariant Valid() && old(history) <= history
        invariant IsPath(path, script, oks, i) && path[0] == old(Now()) && path[i] == Now()
      {
        var ok := Take(script[i]);
        PathOn(path, script, oks, i, ok, Now());
        oks, path := oks + [ok], path + [Now()];
      }
      forall i, j | 0 <= i < |history| && 0 <= j < |history| && history[i].0 == history[j].0
        ensures history[i] == history[j]
      {
        EqualRevisionsEqualEntries(i, j);
      }
    }
  }

  /** A topic had this state at or behind an offset. */
  ghost predicate HadSince<T, V>(log: Log<T, V>, t: T, since: nat, state: Option<Entry<V>>) {
    exists u: nat :: u >= since && state == StateAt(log, t, u)
  }

  const ONE_WRITE: Record<Write<bool, bool>> := Record(1, Write(true, Some(true)))
  const ONE_PAGE: Page<Write<bool, bool>> := Page([ONE_WRITE], 2, None, Some(1))
  const ALL_TOPICS: Scope<bool> := Scope(_ => true, _ => 0)
  const ALL_WRITES: Write<bool, bool> -> bool := _ => true

  lemma OneWriteShows(u: nat)
    requires u >= 1
    ensures StateAt([ONE_WRITE], true, u) == Some(Entry(true, 1))
  {
  }

  lemma NothingYet(t: bool)
    ensures StateAt([ONE_WRITE], t, 0) == None
  {
    assert LastIn([ONE_WRITE][..0], t, -1, 0) == None;
  }

  lemma OnePageIsPage()
    ensures IsPage([ONE_WRITE], ALL_WRITES, 1, ONE_PAGE)
    ensures forall from: nat :: from > 1 ==> IsPage([ONE_WRITE], ALL_WRITES, from, NoMore(from))
  {
    assert [ONE_WRITE][..0] == [];
    assert Select([ONE_WRITE], ALL_WRITES, 1, 2) == [] + [ONE_WRITE];
    forall from: nat | from > 1 ensures IsPage([ONE_WRITE], ALL_WRITES, from, NoMore(from)) {
      SelectNothing([ONE_WRITE], ALL_WRITES, from, from);
    }
  }

  /** A page behind the last record. */
  function NoMore(from: nat): Page<Write<bool, bool>> { Page([], from, None, Some(from)) }

  /** A node that serves the first stream, and cannot say where the other ends. */
  function FirstOnly(): Round<bool, bool> {
    Round(_ => None, s => if s == 0 then Some(1) else None, _ => false,
          (s, _, from) => if s == 0 && from > 0 then Some(if from == 1 then ONE_PAGE else NoMore(from)) else None,
          (_, _) => Taken)
  }

  /** A view of two streams, rebuilt and published while nothing was written. */
  method Started() returns (v: View<bool, bool>)
    ensures fresh(v) && v.Valid() && v.initialized && v.available && v.n == 2 && v.reportsStart
    ensures v.logs == [[ONE_WRITE], []] && v.scope == ALL_TOPICS && v.filter == ALL_WRITES
    ensures v.cursors == v.positions == [0, 0] && v.marks == Fresh([0, 0])
    ensures v.published.Some? && v.published.value.1 == map[]
  {
    v := new View(ALL_TOPICS, ALL_WRITES, true, [[ONE_WRITE], []], _ => 0);
    var boot: Boot<bool, bool> := Boot([0, 0], map[], _ => 0, _ => Taken);
    forall t ensures StateAt([ONE_WRITE], t, 0) == None { NothingYet(t); }
    var ok := v.Bootstrap(boot);
    v.Publish();
  }

  lemma FirstOnlyServes(v: View<bool, bool>)
    requires v.n == 2 && v.reportsStart && v.filter == ALL_WRITES
    ensures v.HonestRound([[ONE_WRITE], []], FirstOnly())
    ensures v.Answers(0, 1, FirstOnly()) && v.Gapless(0, FirstOnly())
  {
    OnePageIsPage();
  }

  /** Being caught up alone is not enough. A first stream is drained, the read
      of the next one's head fails: the view is past the head of the first,
      available, and what it published is what it was before. */
  method CaughtUpIsNotEnough() returns (v: View<bool, bool>)
    ensures v.Valid() && v.initialized && v.available && v.n == 2 && v.CaughtUp([1, 0])
    ensures v.scope.Keeps(true, 0) && !v.marks[0].lost && v.published.Some?
    ensures !HadSince(v.logs[0], true, 1, Get(v.published.value.1, true))
  {
    v := Started();
    FirstOnlyServes(v);
    var round := FirstOnly();
    var _ := v.DrainStream(0, 1, round);
    forall u: nat | u >= 1 ensures StateAt([ONE_WRITE], true, u) != None { OneWriteShows(u); }
  }

  /** The marks once a stream is applied to an offset. */
  function Moved(marks: seq<Mark>, s: nat, upto: nat): seq<Mark>
    requires s < |marks|
  {
    marks[s := marks[s].(applied := Max(marks[s].applied, upto))]
  }

  lemma MovedTwice(marks: seq<Mark>, s: nat, a: nat, b: nat)
    requires s < |marks| && a <= b
    ensures Moved(Moved(marks, s, a), s, b) == Moved(marks, s, b)
  {
  }

  lemma PageOrder<T, V>(log: Log<T, V>, filter: Write<T, V> -> bool, cursor: nat, page: Page<Write<T, V>>, k: nat)
    requires IsLog(log) && IsPage(log, filter, cursor + 1, page) && k <= |page.records|
    ensures 0 < k < |page.records| ==> page.records[k - 1].offset < page.records[k].offset
    ensures 0 < k ==> page.records[k - 1].offset < page.next
  {
    SelectExactly(log, filter, Floor(page, cursor + 1), page.next);
    assert 0 < k < |page.records| ==> Earlier(page.records[k - 1], page.records[k]);
    assert 0 < k ==> Kept(log, filter, Floor(page, cursor + 1), page.next, page.records[k - 1]);
  }
}
