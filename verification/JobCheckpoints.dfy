/** A backfill that carries a checkpointed producer's state: each window's end
    is committed with the state it leads to.

    The tables of a buffer share one connection, so what one statement wrote is
    committed by whoever commits next; `visible` is what reads see and
    `durable` what a crash leaves. */
module JobCheckpoints {
  import opened Options

  datatype Event<E> = Event(ts: int, body: E)

  ghost predicate InTime<E>(events: seq<Event<E>>) {
    forall i, j :: 0 <= i < j < |events| ==> events[i].ts <= events[j].ts
  }

  /** The events of `[a, b)`, in order. */
  function Within<E>(events: seq<Event<E>>, a: int, b: int): seq<Event<E>> {
    if events == [] then []
    else
      var last := events[|events| - 1];
      Within(events[..|events| - 1], a, b) + (if a <= last.ts < b then [last] else [])
  }

  function Fold<S, E>(step: (S, E) -> S, s: S, events: seq<Event<E>>): S {
    if events == [] then s else step(Fold(step, s, events[..|events| - 1]), events[|events| - 1].body)
  }

  lemma {:induction false} FoldJoins<S, E>(step: (S, E) -> S, s: S, a: seq<Event<E>>, b: seq<Event<E>>)
    ensures Fold(step, s, a + b) == Fold(step, Fold(step, s, a), b)
  {
    if b == [] {
      assert a + b == a;
    } else {
      assert (a + b)[..|a + b| - 1] == a + b[..|b| - 1];
      FoldJoins(step, s, a, b[..|b| - 1]);
    }
  }

  lemma {:induction false} NothingBelow<E>(events: seq<Event<E>>, a: int, b: int)
    requires forall i :: 0 <= i < |events| ==> !(a <= events[i].ts < b)
    ensures Within(events, a, b) == []
  {
    if events != [] { NothingBelow(events[..|events| - 1], a, b); }
  }

  /** Windows that tile a range read its events once each, in order. */
  lemma {:induction false} WithinTiles<E>(events: seq<Event<E>>, a: int, b: int, c: int)
    requires InTime(events) && a <= b <= c
    ensures Within(events, a, c) == Within(events, a, b) + Within(events, b, c)
  {
    if events != [] {
      var front, last := events[..|events| - 1], events[|events| - 1];
      WithinTiles(front, a, b, c);
      if last.ts < b { NothingBelow(front, b, c); }
    }
  }

  /** The events before a time come before all others. */
  lemma FirstFrom<E>(events: seq<Event<E>>, t: int, lo: nat) returns (i: nat)
    requires InTime(events) && lo <= |events| && forall k :: 0 <= k < lo ==> events[k].ts < t
    ensures lo <= i <= |events|
    ensures (forall k :: 0 <= k < i ==> events[k].ts < t) && forall k :: i <= k < |events| ==> events[k].ts >= t
  {
    i := lo;
    while i < |events| && events[i].ts < t
      invariant lo <= i <= |events| && forall k :: 0 <= k < i ==> events[k].ts < t
    {
      i := i + 1;
    }
  }

  lemma {:induction false} WithinStretch<E>(events: seq<Event<E>>, a: int, b: int, i: nat, j: nat)
    requires i <= j <= |events| && forall k :: i <= k < j ==> a <= events[k].ts < b
    requires (forall k :: 0 <= k < i ==> events[k].ts < a) && forall k :: j <= k < |events| ==> events[k].ts >= b
    ensures Within(events, a, b) == events[i..j]
  {
    if events != [] {
      var front, last := events[..|events| - 1], events[|events| - 1];
      WithinStretch(front, a, b, Min(i, |front|), Min(j, |front|));
      assert i < j == |events| ==> events[i..j] == front[i..j - 1] + [last];
    }
  }

  /** The events of a window are one stretch of all events: those before it have
      not come to the window's start, those in it lie in the window, and all
      behind it are at its end or later. */
  lemma WithinExactly<E>(events: seq<Event<E>>, a: int, b: int) returns (i: nat, j: nat)
    requires InTime(events) && a <= b
    ensures i <= j <= |events| && Within(events, a, b) == events[i..j]
    ensures forall k :: 0 <= k < i ==> events[k].ts < a
    ensures forall k :: i <= k < j ==> a <= events[k].ts < b
    ensures forall k :: j <= k < |events| ==> events[k].ts >= b
  {
    i := FirstFrom(events, a, 0);
    j := FirstFrom(events, b, i);
    WithinStretch(events, a, b, i, j);
  }

  /** The handlers are called in turn: the fold of no event is the state itself,
      and one more event is one more step. */
  lemma FoldSteps<S, E>(step: (S, E) -> S, s: S, events: seq<Event<E>>, e: Event<E>)
    ensures Fold(step, s, []) == s && Fold(step, s, [e]) == step(s, e.body)
    ensures Fold(step, s, events + [e]) == step(Fold(step, s, events), e.body)
  {
    FoldJoins(step, s, events, [e]);
    assert [e][..0] == [];
  }

  /** What the tables hold of a job and of its producer's checkpoint. */
  datatype Tables<S> = Tables(position: int, windows: nat, saved: Option<S>)

  /** How a window ends: its events fail after so many of them; saving the
      state raises; another writer commits between the two writes, and then
      the process dies; recording the position raises; the process dies before
      the commit; it is committed; or it is left to the commit of an ingest
      page that is open. */
  datatype Fate = WindowFails(after: nat) | SaveRaises | SplitThenDies | RecordRaises | Dies | Committed | LeftOpen {

    predicate Kills() { SplitThenDies? || Dies? }

    predicate SplitsWrites() { SaveRaises? || SplitThenDies? || RecordRaises? }
  }

  /** What can happen next to a job: it is taken up, skips a stretch without
      events, runs a window, is committed with an ingest page, or its process
      dies. */
  datatype Turn = TakesUp | Skips(to: int) | Window(end: int, fate: Fate) | PageCommits | Crashes

  /** Where a job stands: its tables, what it has in memory, and whether it runs. */
  datatype Standing<S> = Standing(visible: Tables<S>, durable: Tables<S>, state: S, position: int, windows: nat,
                                  running: bool)

  class HeldJob<S(==), E> {
    const start: int
    const replay: bool
    const init: S
    const step: (S, E) -> S
    /** Everything the job reads: records and ticks in time order. */
    const events: seq<Event<E>>

    var durable: Tables<S>
    var visible: Tables<S>

    // In memory: the producer's state, and where the job stands while it runs.
    var state: S
    var position: int
    var windows: nat
    var running: bool
    /** The windows that broke the job. */
    ghost var broken: seq<Turn>

    constructor (start: int, replay: bool, init: S, step: (S, E) -> S, events: seq<Event<E>>)
      requires InTime(events)
      ensures Valid() && !running && visible == durable == Tables(start, 0, None)
      ensures this.start == start && this.replay == replay && this.init == init && this.step == step
      ensures this.events == events && broken == []
    {
      this.start, this.replay, this.init, this.step, this.events := start, replay, init, step, events;
      durable, visible := Tables(start, 0, None), Tables(start, 0, None);
      state, position, windows, running, broken := init, start, 0, false, [];
      new;
      NothingBelow(events, start, start);
    }

    /** The state after every event from the job's start to a position. */
    function At(position: int): S {
      Fold(step, init, Within(events, start, position))
    }

    /** The state a job that is taken up again in the same process has. */
    function Resumed(): S
      reads this
    {
      if visible.windows > 0 && visible.saved.Some? then visible.saved.value else state
    }

    /** The state a new process starts the job with. */
    function Restored(): S
      reads this
    {
      if (durable.windows > 0 || replay) && durable.saved.Some? then durable.saved.value else init
    }

    /** A job taken up again goes on from the state at its position. */
    predicate InStep()
      reads this
    {
      Resumed() == At(visible.position)
    }

    /** So does one taken up after a crash. */
    predicate Survives()
      reads this
    {
      Restored() == At(durable.position)
    }

    ghost predicate Kept(t: Tables<S>) {
      && t.position >= start
      && (t.windows > 0 ==> t.saved == Some(At(t.position)))
      && (t.windows == 0 ==> At(t.position) == init && (replay && t.saved.Some? ==> t.saved.value == init))
    }

    ghost predicate Valid()
      reads this
    {
      && InTime(events) && Kept(durable) && Kept(visible)
      && (visible.windows == 0 ==> state == init)
      && (running ==> Runs())
    }

    /** The job runs on the state at its position, which its tables' lead to. */
    ghost predicate Runs()
      reads this
    {
      && position >= start && state == At(position)
      && At(position) == At(visible.position) && windows == visible.windows
    }

    /** What is kept is what was promised. */
    lemma ValidMeans()
      requires Valid()
      ensures InStep() && Survives()
      ensures running ==> state == Fold(step, init, Within(events, start, position))
    {
    }

    lemma AtMoves(a: int, b: int)
      requires InTime(events) && start <= a <= b
      ensures At(b) == Fold(step, At(a), Within(events, a, b))
    {
      WithinTiles(events, start, a, b);
      FoldJoins(step, init, Within(events, start, a), Within(events, a, b));
    }

    /** Take up the job, in a new process or again after a failure. */
    method TakeUp()
      requires Valid() && !running
      modifies this`state, this`position, this`windows, this`running
      ensures Valid() && running && position == old(visible).position && state == At(position)
      ensures Now() == After(old(Now()), TakesUp)
    {
      position, windows := visible.position, visible.windows;
      if windows > 0 && visible.saved.Some? { state := visible.saved.value; }
      running := true;
    }

    /** The process dies, and a new one starts. */
    method Die()
      requires Survives() && InTime(events) && Kept(durable)
      modifies this`state, this`running, this`visible
      ensures Valid() && !running && visible == durable == old(durable)
      ensures Now() == Died(old(Now()))
    {
      visible := durable;
      state := if replay && durable.saved.Some? then durable.saved.value else init;
      running := false;
    }

    /** Skip a stretch without events. */
    method Skip(to: int)
      requires Valid() && running && to >= position && Within(events, position, to) == []
      modifies this`position
      ensures Valid() && position == to
    {
      AtMoves(position, to);
      position := to;
    }

    ghost function Now(): Standing<S>
      reads this
    {
      Standing(visible, durable, state, position, windows, running)
    }

    /** A window leaves the job on a state that is not that of its position:
        its writes were split where it changed the state, and a job taken up
        after it uses what was saved, or, for a first window, has no saved
        state to go back to. */
    predicate Breaks(end: int, fate: Fate)
      reads this`position, this`windows
    {
      SplitFrom(position, windows, end, fate)
    }

    predicate SplitFrom(position: int, windows: nat, end: int, fate: Fate) {
      && At(end) != At(position)
      && (fate.RecordRaises? || (fate.SaveRaises? && windows == 0) || (fate.SplitThenDies? && (windows > 0 || replay)))
    }

    /** The turn is a window that is possible here, and it breaks the job. */
    ghost predicate BreaksIn(a: Standing<S>, turn: Turn) {
      && turn.Window? && a.running && turn.end >= a.position
      && SplitFrom(a.position, a.windows, turn.end, turn.fate)
    }

    /** A new process, which has the tables that were committed. */
    ghost function Died(a: Standing<S>): Standing<S> {
      var saved := a.durable.saved;
      a.(visible := a.durable, running := false, state := if replay && saved.Some? then saved.value else init)
    }

    /** What a window comes to, by how it ends. */
    ghost function WindowAfter(a: Standing<S>, end: int, fate: Fate): Standing<S> {
      var ended := a.(state := At(end), running := false);
      var done := Tables(end, a.windows + 1, Some(At(end)));
      match fate
      case WindowFails(_) => a.(running := false)
      case SaveRaises => ended.(durable := a.visible)
      case SplitThenDies => Died(a.(durable := a.visible.(saved := Some(At(end)))))
      case RecordRaises =>
        var split := a.visible.(saved := Some(At(end)));
        ended.(visible := split, durable := split)
      case Dies => Died(a)
      case Committed =>
        a.(state := At(end), position := end, windows := a.windows + 1, visible := done, durable := done)
      case LeftOpen => a.(state := At(end), position := end, windows := a.windows + 1, visible := done)
    }

    /** What a turn does, when it is possible; otherwise it does nothing. */
    ghost function After(a: Standing<S>, turn: Turn): Standing<S> {
      match turn
      case TakesUp =>
        if a.running then a
        else a.(running := true, position := a.visible.position, windows := a.visible.windows, state :=
          if a.visible.windows > 0 && a.visible.saved.Some? then a.visible.saved.value else a.state)
      case Skips(to) =>
        if a.running && to >= a.position && Within(events, a.position, to) == [] then a.(position := to) else a
      case Window(end, fate) => if a.running && end >= a.position then WindowAfter(a, end, fate) else a
      case PageCommits => a.(durable := a.visible)
      case Crashes => Died(a)
    }

    ghost function AfterAll(a: Standing<S>, turns: seq<Turn>): Standing<S> {
      if turns == [] then a else After(AfterAll(a, turns[..|turns| - 1]), turns[|turns| - 1])
    }

    /** No turn breaks the job where it comes. */
    ghost predicate NoneBreaks(a: Standing<S>, script: seq<Turn>) {
      forall n :: 0 <= n < |script| ==> !BreaksIn(AfterAll(a, script[..n]), script[n])
    }

    /** One window, up to `end`. A job taken up after it, in this process or the
        next, goes on from the state at the position it goes on from, exactly
        unless the window breaks it. */
    method Step(end: int, fate: Fate)
      requires Valid() && running && end >= position
      modifies this`state, this`position, this`windows, this`running, this`visible, this`durable
      ensures Survives() && (fate.Kills() || InStep()) <==> !old(Breaks(end, fate))
      ensures if fate.Kills() then Survives() <==> InTime(events) && Kept(durable)
              else Valid() <==> InStep() && Survives()
      ensures running <==> fate.Committed? || fate.LeftOpen?
      ensures running ==> position == end && state == At(end)
      ensures fate.Committed? ==> durable == visible == Tables(end, old(windows) + 1, Some(At(end)))
      ensures fate.LeftOpen? ==> durable == old(durable) && visible == Tables(end, old(windows) + 1, Some(At(end)))
      ensures fate.WindowFails? ==> state == old(state) && visible == old(visible) && durable == old(durable)
      ensures fate.Dies? ==> durable == old(durable)
      ensures fate.SaveRaises? ==> Survives() && (InStep() <==> old(windows) > 0 || At(end) == At(old(position)))
      ensures fate.RecordRaises? ==> (InStep() <==> At(end) == At(old(position)))
      ensures fate.RecordRaises? || fate.SplitThenDies? ==>
        (Survives() <==> (old(windows) == 0 && !replay) || At(end) == At(old(position)))
      ensures (if fate.Kills() then Died(Now()) else Now()) == WindowAfter(old(Now()), end, fate)
    {
      AtMoves(position, end);
      var failed := RunEvents(end, fate);
      if !failed { Commit(end, fate); }
    }

    /** The events of a window; when it fails, the state it began with is put
        back. */
    method RunEvents(end: int, fate: Fate) returns (failed: bool)
      requires running
      modifies this`state, this`running
      ensures failed <==> fate.WindowFails?
      ensures running == !failed
      ensures state == if failed then old(state) else Fold(step, old(state), Within(events, position, end))
    {
      var previous := state;
      var rows := Within(events, position, end);
      for k := 0 to |rows|
        invariant state == Fold(step, previous, rows[..k]) && running
      {
        if fate.WindowFails? && k == fate.after { break; }
        assert rows[..k + 1][..k] == rows[..k];
        state := step(state, rows[k].body);
      }
      if fate.WindowFails? {
        // A handler failed, or what the window wrote was not confirmed.
        state, running := previous, false;
        return true;
      }
      assert rows[..|rows|] == rows;
      return false;
    }

    /** The two writes of a window's end, and their commit. It commits also
        when a write raised. */
    method Commit(end: int, fate: Fate)
      requires Valid'(end) && end >= position && !fate.WindowFails?
      modifies this`position, this`windows, this`running, this`visible, this`durable
      ensures running <==> fate.Committed? || fate.LeftOpen?
      ensures running ==> Valid() && position == end
      ensures fate.Committed? ==> durable == visible == Tables(end, old(windows) + 1, Some(At(end)))
      ensures fate.LeftOpen? ==> durable == old(durable) && visible == Tables(end, old(windows) + 1, Some(At(end)))
      ensures fate.Dies? ==> durable == old(durable)
      ensures fate.SaveRaises? ==> visible == old(visible) && durable == old(visible)
      ensures fate.RecordRaises? || fate.SplitThenDies? ==> durable == old(visible).(saved := Some(At(end)))
      ensures fate.RecordRaises? ==> visible == durable
      ensures windows == if running then old(windows) + 1 else old(windows)
      ensures !running ==> position == old(position)
    {
      if fate.SaveRaises? {
        durable, running := visible, false;
        return;
      }
      visible := visible.(saved := Some(state));
      if fate.SplitThenDies? {
        durable, running := visible, false;
        return;
      }
      if fate.RecordRaises? {
        durable, running := visible, false;
        return;
      }
      visible := visible.(position := end, windows := windows + 1);
      if fate.Dies? {
        running := false;
        return;
      }
      position, windows := end, windows + 1;
      if fate.Committed? { durable := visible; }
    }

    /** What the tables show is committed with an ingest page. */
    method CommitPage()
      requires Valid()
      modifies this`durable
      ensures Valid() && durable == visible
    {
      durable := visible;
    }

    /** One turn of a run, if it is possible. */
    method Take(turn: Turn) returns (whole: bool)
      requires Valid()
      modifies this
      ensures whole <==> !BreaksIn(old(Now()), turn)
      ensures Survives() && InStep() <==> whole
      ensures Valid() <==> whole
      ensures broken == if whole then old(broken) else old(broken) + [turn]
      ensures whole ==> Now() == After(old(Now()), turn)
    {
      whole := !(turn.Window? && running && turn.end >= position && Breaks(turn.end, turn.fate));
      if !whole { broken := broken + [turn]; }
      match turn
      case TakesUp =>
        if !running { TakeUp(); }
      case Skips(to) =>
        if running && to >= position && Within(events, position, to) == [] { Skip(to); }
      case Window(end, fate) =>
        if running && end >= position {
          Step(end, fate);
          if fate.Kills() && whole { Die(); }
        }
      case PageCommits => CommitPage();
      case Crashes => Die();
    }

    /** One more turn of a script. */
    lemma OneMore(a: Standing<S>, script: seq<Turn>, n: nat)
      requires n < |script|
      ensures AfterAll(a, script[..n + 1]) == After(AfterAll(a, script[..n]), script[n])
      ensures NoneBreaks(a, script[..n + 1])
        <==> NoneBreaks(a, script[..n]) && !BreaksIn(AfterAll(a, script[..n]), script[n])
      ensures !NoneBreaks(a, script[..n + 1]) ==> !NoneBreaks(a, script)
    {
      var some, more := script[..n], script[..n + 1];
      assert more[..n] == some;
      forall k | 0 <= k < n
        ensures BreaksIn(AfterAll(a, more[..k]), more[k]) == BreaksIn(AfterAll(a, some[..k]), some[k])
      {
        assert more[..k] == some[..k];
      }
      forall k | 0 <= k <= n
        ensures BreaksIn(AfterAll(a, more[..k]), more[k]) == BreaksIn(AfterAll(a, script[..k]), script[k])
      {
        assert more[..k] == script[..k];
      }
    }

    /** None breaks the job whose two writes are not split. */
    lemma UnsplitBreaksNone(a: Standing<S>, script: seq<Turn>)
      ensures (forall i :: 0 <= i < |script| && script[i].Window? ==> !script[i].fate.SplitsWrites()) ==>
        NoneBreaks(a, script)
    {
    }

    /** Over every run of windows that fail, are committed or left open, writes
        that raise or are split, and crashes, up to the first window that breaks
        the job where it comes: taken up again in this process or the next the
        job goes on from the fold of all events up to its position exactly when
        none does. None does whose two writes are not split. */
    method Run(script: seq<Turn>)
      requires Valid() && broken == []
      modifies this
      ensures Survives() && InStep() <==> NoneBreaks(old(Now()), script)
      ensures Valid() <==> NoneBreaks(old(Now()), script)
      ensures broken == [] <==> NoneBreaks(old(Now()), script)
      ensures NoneBreaks(old(Now()), script) ==> Now() == AfterAll(old(Now()), script)
      ensures (forall i :: 0 <= i < |script| && script[i].Window? ==> !script[i].fate.SplitsWrites()) ==>
        NoneBreaks(old(Now()), script)
    {
      ghost var start := Now();
      UnsplitBreaksNone(start, script);
      for i := 0 to |script|
        invariant Valid() && broken == [] && Now() == AfterAll(start, script[..i]) && NoneBreaks(start, script[..i])
      {
        OneMore(start, script, i);
        var whole := Take(script[i]);
        if !whole { return; }
      }
      assert script[..|script|] == script;
    }

    /** A window was run, and nothing of it was written yet. */
    ghost predicate Valid'(end: int)
      reads this
    {
      && InTime(events) && Kept(durable) && Kept(visible) && running && windows == visible.windows
      && state == At(end) && position >= start && At(position) == At(visible.position)
    }
  }

  const ONE_EACH: seq<Event<int>> := [Event(0, 1), Event(10, 1)]
  const ADD: (int, int) -> int := (s, e) => s + e

  lemma OneEachWithin(t: int)
    ensures Within(ONE_EACH, 0, t) == (if 0 < t then [Event(0, 1)] else []) + (if 10 < t then [Event(10, 1)] else [])
  {
    var a := Event(0, 1);
    assert ONE_EACH[..1] == [a];
    assert Within([a][..0], 0, t) == [];
    assert Within([a], 0, t) == [] + (if 0 < t then [a] else []);
  }

  lemma Sums(a: Event<int>, b: Event<int>)
    ensures Fold(ADD, 0, []) == 0 && Fold(ADD, 0, [a]) == a.body && Fold(ADD, 0, [a, b]) == a.body + b.body
  {
    assert [a, b][..1] == [a] && [a][..0] == [];
  }

  lemma OneEachCounts()
    ensures Fold(ADD, 0, Within(ONE_EACH, 0, 0)) == 0
    ensures Fold(ADD, 0, Within(ONE_EACH, 0, 10)) == 1
    ensures Fold(ADD, 0, Within(ONE_EACH, 0, 20)) == 2
  {
    var a, b := Event(0, 1), Event(10, 1);
    Sums(a, b);
    OneEachWithin(0);
    OneEachWithin(10);
    OneEachWithin(20);
    assert [a] + [b] == [a, b] && [a] + [] == [a];
  }

  lemma Counts(job: HeldJob<int, int>)
    requires job.start == 0 && job.init == 0 && job.step == ADD && job.events == ONE_EACH
    ensures job.At(0) == 0 && job.At(10) == 1 && job.At(20) == 2
  {
    OneEachCounts();
  }

  /** A first window whose commit fails is run again on the state it led to. */
  method FirstCommitFails() returns (job: HeldJob<int, int>)
    ensures job.Survives() && !job.InStep()
  {
    job := new HeldJob(0, false, 0, ADD, ONE_EACH);
    Counts(job);
    job.TakeUp();
    job.Step(10, SaveRaises);
  }

  /** A commit that comes between a window's two writes saves the state
      without its position; a crash then has the window run again on it. */
  method CommitSplit() returns (job: HeldJob<int, int>)
    ensures !job.Survives()
  {
    job := new HeldJob(0, false, 0, ADD, ONE_EACH);
    Counts(job);
    job.TakeUp();
    job.Step(10, Committed);
    job.Step(20, SplitThenDies);
  }
}
