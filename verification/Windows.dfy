/** The windows of a backfill: the instants a trigger fires at, the events of a
    window in order, and how they are run.

    Instants are counted in a unit in which every time at hand is whole. */
module Windows {
  import opened Options

  // ------------------------------------------------------------- instants

  /** Every instant of `[a, b)` at which a trigger fires, in order. */
  function InstantsIn(fires: int -> bool, a: int, b: int): seq<int>
    decreases b - a
  {
    if b <= a then [] else InstantsIn(fires, a, b - 1) + (if fires(b - 1) then [b - 1] else [])
  }

  lemma {:induction false} InstantsExactly(fires: int -> bool, a: int, b: int)
    ensures forall t :: t in InstantsIn(fires, a, b) <==> a <= t < b && fires(t)
    ensures forall i, j :: 0 <= i < j < |InstantsIn(fires, a, b)| ==>
      InstantsIn(fires, a, b)[i] < InstantsIn(fires, a, b)[j]
    decreases b - a
  {
    if b > a {
      InstantsExactly(fires, a, b - 1);
      var before, all := InstantsIn(fires, a, b - 1), InstantsIn(fires, a, b);
      forall i, j | 0 <= i < j < |all| ensures all[i] < all[j] {
        assert before[i] in before;
      }
    }
  }

  /** Windows that tile a range fire every instant exactly once, in order. */
  lemma {:induction false} InstantsTile(fires: int -> bool, a: int, b: int, c: int)
    requires a <= b <= c
    ensures InstantsIn(fires, a, c) == InstantsIn(fires, a, b) + InstantsIn(fires, b, c)
    decreases c - b
  {
    if b < c { InstantsTile(fires, a, b, c - 1); }
  }

  lemma {:induction false} NothingFires(fires: int -> bool, a: int, b: int)
    requires forall t :: a <= t < b ==> !fires(t)
    ensures InstantsIn(fires, a, b) == []
    decreases b - a
  {
    if a < b { NothingFires(fires, a, b - 1); }
  }

  /** The next instant: nothing fires in between. */
  lemma NextInstant(fires: int -> bool, a: int, at: int, next: int)
    requires a <= at < next && fires(at) && forall t :: at < t < next ==> !fires(t)
    ensures InstantsIn(fires, a, next) == InstantsIn(fires, a, at) + [at]
  {
    InstantsTile(fires, a, at, next);
    InstantsTile(fires, at, at + 1, next);
    NothingFires(fires, at + 1, next);
    assert InstantsIn(fires, at, at) == [];
  }

  function Every(seconds: int): int -> bool
    requires seconds > 0
  {
    t => t % seconds == 0
  }

  /** The next multiple, with none before it. */
  lemma NextMultiple(t: int, seconds: int)
    requires seconds > 0 && t % seconds == 0
    ensures (t + seconds) % seconds == 0
    ensures forall u :: t < u < t + seconds ==> u % seconds != 0
  {
    ModuloShifts(t, seconds, seconds);
    forall u | t < u < t + seconds ensures u % seconds != 0 { ModuloShifts(t, u - t, seconds); }
  }

  lemma ModuloShifts(t: int, shift: int, seconds: int)
    requires seconds > 0 && t % seconds == 0 && 0 <= shift <= seconds
    ensures (t + shift) % seconds == if shift == seconds then 0 else shift
  {
    var k := t / seconds;
    assert t == k * seconds;
    if shift == seconds {
      assert t + shift == (k + 1) * seconds;
      ModuloOf(t + shift, k + 1, 0, seconds);
    } else {
      ModuloOf(t + shift, k, shift, seconds);
    }
  }

  /** A remainder is what is left of a multiple. */
  lemma ModuloOf(t: int, q: int, r: int, seconds: int)
    requires seconds > 0 && t == q * seconds + r && 0 <= r < seconds
    ensures t % seconds == r
  {
    var q', r' := t / seconds, t % seconds;
    assert t == q' * seconds + r';
    assert (q - q') * seconds == r' - r;
    if q > q' { Product(1, q - q', seconds); }
    if q < q' { Product(q - q', -1, seconds); }
  }

  lemma Product(a: int, b: int, c: int)
    requires a <= b && c >= 0
    ensures a * c <= b * c
  {
    assert b * c - a * c == (b - a) * c;
  }

  /** `math.ceil(start / seconds)`. */
  function CeilDiv(start: int, seconds: int): int
    requires seconds > 0
  {
    -((-start) / seconds)
  }

  lemma CeilDivIs(start: int, seconds: int)
    requires seconds > 0
    ensures CeilDiv(start, seconds) * seconds - seconds < start <= CeilDiv(start, seconds) * seconds
    ensures (CeilDiv(start, seconds) * seconds) % seconds == 0
    ensures (CeilDiv(start, seconds) * seconds - seconds) % seconds == 0
  {
    ModuloOf(CeilDiv(start, seconds) * seconds, CeilDiv(start, seconds), 0, seconds);
    ModuloOf(CeilDiv(start, seconds) * seconds - seconds, CeilDiv(start, seconds) - 1, 0, seconds);
    var q := (-start) / seconds;
    assert -start == q * seconds + (-start) % seconds;
    assert (-q) * seconds == -(q * seconds);
  }

  /** `tick_instants` of an interval: multiples since the epoch. */
  method IntervalInstants(seconds: int, start: int, end: int) returns (instants: seq<int>)
    requires seconds > 0
    ensures instants == InstantsIn(Every(seconds), start, end)
    ensures forall t :: t in instants <==> start <= t < end && t % seconds == 0
  {
    InstantsExactly(Every(seconds), start, end);
    instants := [];
    var due := CeilDiv(start, seconds) * seconds;
    CeilDivIs(start, seconds);
    NextMultiple(due - seconds, seconds);
    NothingFires(Every(seconds), start, due);
    while due < end
      invariant due % seconds == 0 && start <= due && due - seconds < Max(start, end)
      invariant instants == InstantsIn(Every(seconds), start, due)
      invariant forall t :: due - seconds < t < due ==> t % seconds != 0
      decreases end - due
    {
      NextMultiple(due, seconds);
      NextInstant(Every(seconds), start, due, due + seconds);
      if due >= start { instants := instants + [due]; }
      due := due + seconds;
    }
    if start <= end {
      InstantsTile(Every(seconds), start, end, due);
      NothingFires(Every(seconds), end, due);
    }
  }

  /** What the next-tick function of a cron trigger says: the first instant
      after another, if there is one. */
  ghost predicate IsNextTick(next: int -> Option<int>, fires: int -> bool) {
    && (forall t {:trigger next(t)} :: next(t).Some? ==> t < next(t).value && fires(next(t).value))
    && (forall t, u {:trigger next(t), fires(u)} :: t < u && fires(u) ==> next(t).Some? && next(t).value <= u)
  }

  /** `tick_instants` of a cron trigger; it asks from a `second` early. */
  method CronInstants(next: int -> Option<int>, ghost fires: int -> bool, start: int, end: int, second: nat)
    returns (instants: seq<int>)
    requires second > 0 && IsNextTick(next, fires)
    ensures instants == InstantsIn(fires, start, end)
  {
    instants := [];
    var fire := next(start - second);
    ghost var from := start;
    if fire.None? || fire.value >= start {
      NothingFires(fires, start, Min(if fire.Some? then fire.value else end, Max(start, end)));
    }
    while fire.Some? && fire.value < end
      invariant fire.Some? ==> fires(fire.value)
      invariant forall u :: fires(u) && from <= u ==> fire.Some? && fire.value <= u
      invariant from >= start && instants == InstantsIn(fires, start, from)
      invariant fire.Some? && fire.value < start ==> from == start
      invariant fire.Some? && fire.value >= start ==> from <= fire.value
      invariant from <= Max(start, end)
      decreases if fire.Some? then end - fire.value else -1
    {
      assert fires(fire.value);
      if fire.value >= start {
        NothingFires(fires, from, fire.value);
        InstantsTile(fires, start, from, fire.value);
        instants := instants + [fire.value];
        from := fire.value + 1;
      }
      fire := next(fire.value);
    }
    if start <= end {
      NothingFires(fires, from, end);
      InstantsTile(fires, start, from, end);
    }
  }

  // --------------------------------------------------------------- events

  /** One event of a window: a record of an input (kind 0) or an instant of a
      trigger (kind 1), of the so-manieth declared one. */
  datatype Event<X> = Event(ts: int, kind: int, order: nat, target: X)

  /** Earlier first; at one instant records first, then as declared. */
  predicate NotAfter<X>(a: Event<X>, b: Event<X>) {
    a.ts < b.ts || (a.ts == b.ts && (a.kind < b.kind || (a.kind == b.kind && a.order <= b.order)))
  }

  ghost predicate Sorted<X>(events: seq<Event<X>>) {
    forall i, j :: 0 <= i < j < |events| ==> NotAfter(events[i], events[j])
  }

  /** Two sorted sequences merged; the first goes first on a tie. */
  function Merge<X>(a: seq<Event<X>>, b: seq<Event<X>>): seq<Event<X>> {
    if a == [] then b
    else if b == [] then a
    else if NotAfter(a[0], b[0]) then [a[0]] + Merge(a[1..], b)
    else [b[0]] + Merge(a, b[1..])
  }

  /** `heapq.merge` over the streams of a window. */
  function MergeAll<X>(streams: seq<seq<Event<X>>>): seq<Event<X>> {
    if streams == [] then [] else Merge(MergeAll(streams[..|streams| - 1]), streams[|streams| - 1])
  }

  /** At one instant records, whose kind is the lower, come before ticks, and
      what was declared first comes first. */
  lemma RecordsBeforeTicks<X>(streams: seq<seq<Event<X>>>, i: nat, j: nat)
    requires (forall k :: 0 <= k < |streams| ==> Sorted(streams[k])) && i < j < |MergeAll(streams)|
    ensures var a, b := MergeAll(streams)[i], MergeAll(streams)[j];
      a.ts <= b.ts && (a.ts == b.ts ==> a.kind <= b.kind && (a.kind == b.kind ==> a.order <= b.order))
  {
    MergeAllSorts(streams);
  }

  lemma {:induction false} MergeKeeps<X>(a: seq<Event<X>>, b: seq<Event<X>>)
    ensures multiset(Merge(a, b)) == multiset(a) + multiset(b)
  {
    if a == [] || b == [] {
    } else if NotAfter(a[0], b[0]) {
      MergeKeeps(a[1..], b);
      assert a == [a[0]] + a[1..];
    } else {
      MergeKeeps(a, b[1..]);
      assert b == [b[0]] + b[1..];
    }
  }

  lemma SortedTail<X>(a: seq<Event<X>>)
    requires Sorted(a) && a != []
    ensures Sorted(a[1..]) && forall e :: e in a ==> NotAfter(a[0], e)
  {
  }

  /** Something no later than all the rest goes first. */
  lemma SortedWith<X>(e: Event<X>, rest: seq<Event<X>>)
    requires Sorted(rest) && forall x :: x in rest ==> NotAfter(e, x)
    ensures Sorted([e] + rest)
  {
  }

  lemma {:induction false} MergeSorts<X>(a: seq<Event<X>>, b: seq<Event<X>>)
    requires Sorted(a) && Sorted(b)
    ensures Sorted(Merge(a, b))
    ensures forall x :: x in Merge(a, b) ==> x in a || x in b
  {
    if a == [] || b == [] {
    } else if NotAfter(a[0], b[0]) {
      SortedTail(a);
      SortedTail(b);
      MergeSorts(a[1..], b);
      SortedWith(a[0], Merge(a[1..], b));
    } else {
      SortedTail(a);
      SortedTail(b);
      MergeSorts(a, b[1..]);
      SortedWith(b[0], Merge(a, b[1..]));
    }
  }

  lemma {:induction false} MergeAllSorts<X>(streams: seq<seq<Event<X>>>)
    requires forall i :: 0 <= i < |streams| ==> Sorted(streams[i])
    ensures Sorted(MergeAll(streams))
  {
    if streams != [] {
      MergeAllSorts(streams[..|streams| - 1]);
      MergeSorts(MergeAll(streams[..|streams| - 1]), streams[|streams| - 1]);
    }
  }

  /** Every event of every stream, so often as it is there. */
  ghost function Total<X>(streams: seq<seq<Event<X>>>): multiset<Event<X>> {
    if streams == [] then multiset{} else Total(streams[..|streams| - 1]) + multiset(streams[|streams| - 1])
  }

  lemma {:induction false} MergeAllKeeps<X>(streams: seq<seq<Event<X>>>)
    ensures multiset(MergeAll(streams)) == Total(streams)
  {
    if streams != [] {
      MergeAllKeeps(streams[..|streams| - 1]);
      MergeKeeps(MergeAll(streams[..|streams| - 1]), streams[|streams| - 1]);
    }
  }

  ghost predicate Below<X>(events: seq<Event<X>>, t: int) {
    forall i :: 0 <= i < |events| ==> events[i].ts < t
  }

  ghost predicate From<X>(events: seq<Event<X>>, t: int) {
    forall i :: 0 <= i < |events| ==> events[i].ts >= t
  }

  lemma TailOf<X>(x: seq<Event<X>>, y: seq<Event<X>>)
    requires x != []
    ensures (x + y)[0] == x[0] && (x + y)[1..] == x[1..] + y
  {
  }

  lemma BackTogether<X>(x: seq<Event<X>>, y: seq<Event<X>>)
    requires x != []
    ensures [x[0]] + (x[1..] + y) == x + y
  {
  }

  /** What lies before an instant is merged before what does not. */
  lemma {:induction false} MergeTiles<X>(a: seq<Event<X>>, a': seq<Event<X>>, b: seq<Event<X>>, b': seq<Event<X>>,
                                         t: int)
    requires Below(a, t) && Below(b, t) && From(a', t) && From(b', t)
    ensures Merge(a + a', b + b') == Merge(a, b) + Merge(a', b')
  {
    if a == [] && b == [] {
      assert a + a' == a' && b + b' == b';
    } else if b == [] {
      MergeTilesLeft(a, a', b', t);
      assert b + b' == b';
    } else if a == [] {
      MergeTilesRight(a', b, b', t);
      assert a + a' == a';
    } else if NotAfter(a[0], b[0]) {
      TailOf(a, a');
      TailOf(b, b');
      MergeTiles(a[1..], a', b, b', t);
      assert [a[0]] + (Merge(a[1..], b) + Merge(a', b')) == ([a[0]] + Merge(a[1..], b)) + Merge(a', b');
    } else {
      TailOf(a, a');
      TailOf(b, b');
      MergeTiles(a, a', b[1..], b', t);
      assert [b[0]] + (Merge(a, b[1..]) + Merge(a', b')) == ([b[0]] + Merge(a, b[1..])) + Merge(a', b');
    }
  }

  lemma {:induction false} MergeTilesLeft<X>(a: seq<Event<X>>, a': seq<Event<X>>, b: seq<Event<X>>, t: int)
    requires Below(a, t) && From(a', t) && From(b, t)
    ensures Merge(a + a', b) == a + Merge(a', b)
  {
    if a == [] {
      assert a + a' == a';
    } else if b != [] {
      TailOf(a, a');
      assert a[0].ts < t <= b[0].ts;
      MergeTilesLeft(a[1..], a', b, t);
      BackTogether(a, Merge(a', b));
    } else {
      assert Merge(a', b) == a';
    }
  }

  lemma {:induction false} MergeTilesRight<X>(a: seq<Event<X>>, b: seq<Event<X>>, b': seq<Event<X>>, t: int)
    requires Below(b, t) && From(b', t) && From(a, t)
    ensures Merge(a, b + b') == b + Merge(a, b')
  {
    if b == [] {
      assert b + b' == b';
    } else if a != [] {
      TailOf(b, b');
      assert b[0].ts < t <= a[0].ts;
      MergeTilesRight(a, b[1..], b', t);
      BackTogether(b, Merge(a, b'));
    } else {
      assert Merge(a, b') == b';
    }
  }

  lemma {:induction false} MergeBounds<X>(streams: seq<seq<Event<X>>>, t: int)
    ensures (forall i :: 0 <= i < |streams| ==> Below(streams[i], t)) ==> Below(MergeAll(streams), t)
    ensures (forall i :: 0 <= i < |streams| ==> From(streams[i], t)) ==> From(MergeAll(streams), t)
  {
    if streams != [] {
      var front, last := streams[..|streams| - 1], streams[|streams| - 1];
      MergeBounds(front, t);
      MergeKeeps(MergeAll(front), last);
      var all := MergeAll(streams);
      forall i | 0 <= i < |all| ensures all[i] in MergeAll(front) || all[i] in last {
        assert all[i] in multiset(all);
      }
    }
  }

  /** A window's events are those of its first part, then those of its second:
      windows that tile a range run its events once each, in order. */
  lemma {:induction false} WindowsTile<X>(first: seq<seq<Event<X>>>, second: seq<seq<Event<X>>>, t: int)
    requires |first| == |second|
    requires forall i :: 0 <= i < |first| ==> Below(first[i], t) && From(second[i], t)
    ensures MergeAll(seq(|first|, i requires 0 <= i < |first| => first[i] + second[i]))
      == MergeAll(first) + MergeAll(second)
  {
    var both := seq(|first|, i requires 0 <= i < |first| => first[i] + second[i]);
    if first != [] {
      var n := |first| - 1;
      var firsts, seconds := first[..n], second[..n];
      WindowsTile(firsts, seconds, t);
      assert both[..n] == seq(n, i requires 0 <= i < n => firsts[i] + seconds[i]);
      MergeBounds(firsts, t);
      MergeBounds(seconds, t);
      MergeTiles(MergeAll(firsts), MergeAll(seconds), first[n], second[n], t);
    }
  }

  // -------------------------------------------------------------- running

  /** What an event is for: an input's handlers, or a trigger's method. */
  datatype Target = Input(handlers: seq<string>) | Trigger(name: string)

  datatype Call = Handled(ts: int, handler: string) | Ticked(ts: int, name: string)

  function CallsOf(e: Event<Target>): seq<Call> {
    match e.target
    case Input(handlers) => seq(|handlers|, i requires 0 <= i < |handlers| => Handled(e.ts, handlers[i]))
    case Trigger(name) => [Ticked(e.ts, name)]
  }

  /** The calls of the first so many events. */
  function Calls(events: seq<Event<Target>>, n: nat): seq<Call>
    requires n <= |events|
  {
    if n == 0 then [] else Calls(events, n - 1) + CallsOf(events[n - 1])
  }

  /** Every call of every event, once, in the order of the events. */
  ghost predicate AreCalls(calls: seq<Call>, events: seq<Event<Target>>) {
    calls == Calls(events, |events|)
  }

  /** Instants are for triggers, records for inputs. */
  ghost predicate Fitting(events: seq<Event<Target>>) {
    forall i :: 0 <= i < |events| ==> (events[i].kind == 1 <==> events[i].target.Trigger?)
  }

  /** Every handler of an input, as declared. */
  method RunHandlers(e: Event<Target>) returns (calls: seq<Call>)
    requires e.target.Input?
    ensures calls == CallsOf(e)
  {
    calls := [];
    for j := 0 to |e.target.handlers|
      invariant calls == CallsOf(e)[..j]
    {
      calls := calls + [Handled(e.ts, e.target.handlers[j])];
    }
  }

  /** `_run_events`: consecutive ticks run together, and every call is made
      once, in the order of the events. */
  method RunEvents(events: seq<Event<Target>>) returns (calls: seq<Call>)
    requires Fitting(events)
    ensures AreCalls(calls, events)
  {
    calls := [];
    var due: seq<Call> := [];
    for k := 0 to |events|
      invariant calls + due == Calls(events, k)
    {
      var e := events[k];
      if e.kind == 1 {
        TickFollows(calls, due, e);
        due := due + [Ticked(e.ts, e.target.name)];
      } else {
        if due != [] {
          calls, due := calls + due, [];
        }
        var handled := RunHandlers(e);
        calls := calls + handled;
      }
    }
    if due != [] { calls := calls + due; }
  }

  lemma TickFollows(calls: seq<Call>, due: seq<Call>, e: Event<Target>)
    requires e.target.Trigger?
    ensures calls + (due + [Ticked(e.ts, e.target.name)]) == (calls + due) + CallsOf(e)
  {
  }
}
