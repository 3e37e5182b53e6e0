/** The buffer of points: its chunked trim, and reads that go on into a
    historian for what lies before the buffer. */
module BufferReads {
  import opened Options

  datatype Row<V> = Row(ts: int, value: V)

  type Rows<V> = seq<Row<V>>

  predicate Before<V>(a: Row<V>, b: Row<V>) { a.ts < b.ts }

  /** One row per time, in time order. */
  ghost predicate Series<V>(rows: Rows<V>) {
    forall i, j {:trigger Before(rows[i], rows[j])} :: 0 <= i < j < |rows| ==> Before(rows[i], rows[j])
  }

  /** The rows with `a <= ts < b`, in order. */
  function Between<V>(rows: Rows<V>, a: int, b: int): Rows<V> {
    if rows == [] then []
    else
      var last := rows[|rows| - 1];
      Between(rows[..|rows| - 1], a, b) + (if a <= last.ts < b then [last] else [])
  }

  /** The rows with `a <= ts`. */
  function From<V>(rows: Rows<V>, a: int): Rows<V> {
    if rows == [] then []
    else
      var last := rows[|rows| - 1];
      From(rows[..|rows| - 1], a) + (if a <= last.ts then [last] else [])
  }

  /** The newest row at or before a time. */
  function LatestBefore<V>(rows: Rows<V>, t: int): Option<Row<V>> {
    if rows == [] then None
    else if rows[|rows| - 1].ts <= t then Some(rows[|rows| - 1])
    else LatestBefore(rows[..|rows| - 1], t)
  }

  function Earliest<V>(rows: Rows<V>): Option<int> {
    if rows == [] then None else Some(rows[0].ts)
  }

  lemma SeriesFront<V>(rows: Rows<V>)
    requires Series(rows) && rows != []
    ensures Series(rows[..|rows| - 1])
    ensures forall i :: 0 <= i < |rows| - 1 ==> rows[i].ts < rows[|rows| - 1].ts
  {
    forall i | 0 <= i < |rows| - 1 ensures rows[i].ts < rows[|rows| - 1].ts {
      assert Before(rows[i], rows[|rows| - 1]);
    }
    var front := rows[..|rows| - 1];
    forall i, j | 0 <= i < j < |front| ensures Before(front[i], front[j]) { assert Before(rows[i], rows[j]); }
  }

  /** Exactly the rows of the range, in order. */
  lemma {:induction false} BetweenExactly<V>(rows: Rows<V>, a: int, b: int, r: Row<V>)
    ensures r in Between(rows, a, b) <==> r in rows && a <= r.ts < b
  {
    if rows != [] {
      BetweenExactly(rows[..|rows| - 1], a, b, r);
      assert rows == rows[..|rows| - 1] + [rows[|rows| - 1]];
    }
  }

  lemma {:induction false} BetweenSeries<V>(rows: Rows<V>, a: int, b: int)
    requires Series(rows)
    ensures Series(Between(rows, a, b))
  {
    if rows != [] {
      var front, last := rows[..|rows| - 1], rows[|rows| - 1];
      SeriesFront(rows);
      BetweenSeries(front, a, b);
      var kept, all := Between(front, a, b), Between(rows, a, b);
      forall i, j | 0 <= i < j < |all| ensures Before(all[i], all[j]) {
        if j < |kept| {
          assert Before(kept[i], kept[j]);
        } else {
          BetweenExactly(front, a, b, kept[i]);
          var k :| 0 <= k < |front| && front[k] == kept[i];
        }
      }
    }
  }

  lemma SomeIn<V>(a: Rows<V>, b: Rows<V>)
    requires forall r :: r in a ==> r in b
    ensures a != [] ==> b != []
  {
    if a != [] { assert a[0] in b; }
  }

  /** Rows in time order are told by which they are. */
  lemma {:induction false} SameRows<V>(a: Rows<V>, b: Rows<V>)
    requires Series(a) && Series(b) && forall r :: r in a <==> r in b
    ensures a == b
  {
    SomeIn(a, b);
    SomeIn(b, a);
    if a != [] {
      var x, y := a[|a| - 1], b[|b| - 1];
      SeriesFront(a);
      SeriesFront(b);
      assert x in b && y in a;
      var f, g := a[..|a| - 1], b[..|b| - 1];
      assert a == f + [x] && b == g + [y];
      forall r ensures r in f <==> r in g { assert (r in a <==> r in f || r == x) && (r in b <==> r in g || r == y); }
      SameRows(f, g);
    }
  }

  /** The rows of the range are all in the other. */
  ghost predicate Stay<V(!new)>(rows: Rows<V>, left: Rows<V>, a: int, b: int) {
    forall r :: r in rows && a <= r.ts < b ==> r in left
  }

  /** Some rows of a series make the same range of it exactly when none of that
      range is missing. */
  lemma SameRangeExactly<V(!new)>(rows: Rows<V>, left: Rows<V>, a: int, b: int)
    requires Series(rows) && Series(left) && forall r :: r in left ==> r in rows
    ensures Between(left, a, b) == Between(rows, a, b) <==> Stay(rows, left, a, b)
  {
    forall r ensures r in Between(left, a, b) <==> r in left && a <= r.ts < b { BetweenExactly(left, a, b, r); }
    forall r ensures r in Between(rows, a, b) <==> r in rows && a <= r.ts < b { BetweenExactly(rows, a, b, r); }
    BetweenSeries(rows, a, b);
    BetweenSeries(left, a, b);
    if Stay(rows, left, a, b) { SameRows(Between(left, a, b), Between(rows, a, b)); }
  }

  lemma {:induction false} BetweenNothing<V>(rows: Rows<V>, a: int, b: int)
    requires b <= a || forall i :: 0 <= i < |rows| ==> rows[i].ts < a
    ensures Between(rows, a, b) == []
  {
    if rows != [] { BetweenNothing(rows[..|rows| - 1], a, b); }
  }

  /** Two ranges that meet make one. */
  lemma {:induction false} BetweenJoins<V>(rows: Rows<V>, a: int, b: int, c: int)
    requires Series(rows) && a <= b <= c
    ensures Between(rows, a, c) == Between(rows, a, b) + Between(rows, b, c)
  {
    if rows != [] {
      var front, last := rows[..|rows| - 1], rows[|rows| - 1];
      SeriesFront(rows);
      BetweenJoins(front, a, b, c);
      var x, y := Between(front, a, b), Between(front, b, c);
      if last.ts < b {
        BetweenNothing(front, b, c);
        assert x + [] == x;
      } else {
        assert x + (y + [last]) == (x + y) + [last];
      }
    }
  }

  /** A range of what starts no later is a range of the whole. */
  lemma {:induction false} BetweenFrom<V>(rows: Rows<V>, e: int, a: int, b: int)
    requires e <= a
    ensures Between(From(rows, e), a, b) == Between(rows, a, b)
  {
    if rows != [] {
      BetweenFrom(rows[..|rows| - 1], e, a, b);
      var kept := From(rows[..|rows| - 1], e);
      assert (kept + [rows[|rows| - 1]])[..|kept|] == kept;
      assert kept + [] == kept;
    }
  }

  /** What is left from a time on is a suffix. */
  lemma {:induction false} FromSuffix<V>(rows: Rows<V>, e: int) returns (k: nat)
    requires Series(rows)
    ensures k <= |rows| && From(rows, e) == rows[k..]
    ensures (forall i :: 0 <= i < k ==> rows[i].ts < e) && forall i :: k <= i < |rows| ==> rows[i].ts >= e
  {
    if rows == [] {
      k := 0;
    } else {
      var front, last := rows[..|rows| - 1], rows[|rows| - 1];
      SeriesFront(rows);
      assert rows == front + [last];
      k := FromSuffix(front, e);
      if last.ts < e {
        k := |rows|;
      } else {
        assert rows[k..] == front[k..] + [last];
      }
    }
  }

  lemma {:induction false} FromExactly<V>(rows: Rows<V>, e: int, r: Row<V>)
    ensures r in From(rows, e) <==> r in rows && r.ts >= e
  {
    if rows != [] {
      FromExactly(rows[..|rows| - 1], e, r);
      assert rows == rows[..|rows| - 1] + [rows[|rows| - 1]];
    }
  }

  /** A trim whose anchor is the newest row before the cutoff changes no latest
      value at the cutoff or later. */
  lemma {:induction false} LatestKept<V>(rows: Rows<V>, anchor: int, t: int)
    requires Series(rows) && anchor <= t && exists r :: r in rows && r.ts == anchor
    ensures LatestBefore(From(rows, anchor), t) == LatestBefore(rows, t)
  {
    var front, last := rows[..|rows| - 1], rows[|rows| - 1];
    SeriesFront(rows);
    var kept := From(front, anchor);
    assert (kept + [last])[..|kept|] == kept;
    if last.ts > t {
      var r :| r in rows && r.ts == anchor;
      assert r in front;
      LatestKept(front, anchor, t);
    }
  }

  /** The rows with `ts < t`. */
  function Until<V>(rows: Rows<V>, t: int): Rows<V> {
    if rows == [] then []
    else
      var last := rows[|rows| - 1];
      Until(rows[..|rows| - 1], t) + (if last.ts < t then [last] else [])
  }

  // ------------------------------------------------------------------ trim

  /** What a statement leaves: of a signal, the k-th of a trim, of these rows,
      with this anchor. */
  type Pick<!V> = (string, nat, Rows<V>, int) -> Rows<V>

  /** A statement that deletes at most so many of the rows before the anchor,
      whichever it finds first, and all of them when there are fewer. */
  ghost predicate IsChunk<V>(rows: Rows<V>, left: Rows<V>, anchor: int, chunk: nat) {
    && Series(left) && (forall r :: r in left ==> r in rows)
    && From(left, anchor) == From(rows, anchor)
    && |rows| - |left| == Min(chunk, |Until(rows, anchor)|)
  }

  ghost predicate IsPick<V>(pick: Pick<V>, s: string, k: nat, rows: Rows<V>, anchor: int, chunk: nat) {
    Series(rows) ==> IsChunk(rows, pick(s, k, rows, anchor), anchor, chunk)
  }

  /** Every statement deletes a chunk of what is there. */
  ghost predicate Picks<V(!new)>(pick: Pick<V>, chunk: nat) {
    forall s, k, rows, anchor :: IsPick(pick, s, k, rows, anchor, chunk)
  }

  /** The rows without `count` of them from index `from` on. */
  function Without<V>(rows: Rows<V>, from: nat, count: nat): Rows<V>
    requires from + count <= |rows|
  {
    rows[..from] + rows[from + count..]
  }

  /** Any stretch of rows before the anchor may be what a statement deletes. */
  lemma StretchIsChunk<V>(rows: Rows<V>, anchor: int, from: nat, chunk: nat)
    requires Series(rows)
    requires from + Min(chunk, |Until(rows, anchor)|) <= |Until(rows, anchor)|
    ensures from + Min(chunk, |Until(rows, anchor)|) <= |rows|
    ensures IsChunk(rows, Without(rows, from, Min(chunk, |Until(rows, anchor)|)), anchor, chunk)
  {
    var k := FromSuffix(rows, anchor);
    UntilRest(rows, anchor);
    var count := Min(chunk, k);
    var left := Without(rows, from, count);
    WithoutSeries(rows, from, count);
    WithoutFrom(rows, anchor, from, count, k);
  }

  /** Rows before the anchor go, those from it on stay. */
  lemma WithoutFrom<V>(rows: Rows<V>, anchor: int, from: nat, count: nat, k: nat)
    requires from + count <= k <= |rows|
    requires (forall i :: 0 <= i < k ==> rows[i].ts < anchor) && forall i :: k <= i < |rows| ==> rows[i].ts >= anchor
    ensures From(Without(rows, from, count), anchor) == rows[k..]
  {
    var left := Without(rows, from, count);
    forall i | 0 <= i < k - count ensures left[i].ts < anchor {
      assert left[i] == rows[if i < from then i else i + count];
    }
    forall i | k - count <= i < |left| ensures left[i].ts >= anchor { assert left[i] == rows[i + count]; }
    SplitFrom(left, anchor, k - count);
    assert left[k - count..] == rows[k..];
  }

  lemma WithoutSeries<V>(rows: Rows<V>, from: nat, count: nat)
    requires Series(rows) && from + count <= |rows|
    ensures Series(Without(rows, from, count))
  {
    var left := Without(rows, from, count);
    forall i, j | 0 <= i < j < |left| ensures Before(left[i], left[j]) {
      assert Before(rows[if i < from then i else i + count], rows[if j < from then j else j + count]);
    }
  }

  lemma {:induction false} SplitFrom<V>(rows: Rows<V>, e: int, k: nat)
    requires k <= |rows|
    requires (forall i :: 0 <= i < k ==> rows[i].ts < e) && forall i :: k <= i < |rows| ==> rows[i].ts >= e
    ensures From(rows, e) == rows[k..]
  {
    if k < |rows| {
      SplitFrom(rows[..|rows| - 1], e, k);
      assert rows[k..] == rows[..|rows| - 1][k..] + [rows[|rows| - 1]];
    } else if k > 0 {
      SplitFrom(rows[..|rows| - 1], e, k - 1);
    }
  }

  lemma {:induction false} UntilRest<V>(rows: Rows<V>, e: int)
    ensures |Until(rows, e)| + |From(rows, e)| == |rows|
  {
    if rows != [] { UntilRest(rows[..|rows| - 1], e); }
  }

  /** The oldest rows go first. */
  function OldestFirst<V>(rows: Rows<V>, anchor: int, chunk: nat): Rows<V> {
    UntilRest(rows, anchor);
    Without(rows, 0, Min(chunk, |Until(rows, anchor)|))
  }

  /** A statement that takes the oldest rows first deletes a chunk every time. */
  lemma OldestFirstPicks<V(!new)>(chunk: nat)
    ensures Picks((s: string, k: nat, rows: Rows<V>, anchor: int) => OldestFirst(rows, anchor, chunk), chunk)
  {
    var pick := (s: string, k: nat, rows: Rows<V>, anchor: int) => OldestFirst(rows, anchor, chunk);
    forall s: string, k: nat, rows: Rows<V>, anchor: int ensures IsPick(pick, s, k, rows, anchor, chunk) {
      if Series(rows) { StretchIsChunk(rows, anchor, 0, chunk); }
    }
  }

  /** Statement after statement deletes as one larger statement could. */
  lemma ChunksCompose<V>(rows: Rows<V>, mid: Rows<V>, left: Rows<V>, anchor: int, c: nat, d: nat)
    requires Series(rows) && IsChunk(rows, mid, anchor, c) && IsChunk(mid, left, anchor, d)
    ensures IsChunk(rows, left, anchor, c + d)
  {
    UntilRest(rows, anchor);
    UntilRest(mid, anchor);
  }

  /** What may be left after `j` statements. */
  ghost predicate LeftAfter<V(!new)>(rows: Rows<V>, left: Rows<V>, anchor: int, chunk: nat, j: nat)
    decreases j
  {
    if j == 0 then left == rows
    else exists mid :: LeftAfter(rows, mid, anchor, chunk, j - 1) && IsChunk(mid, left, anchor, chunk)
  }

  ghost predicate AreLeft<V(!new)>(rows: Rows<V>, seen: seq<Rows<V>>, anchor: int, chunk: nat) {
    forall j :: 0 <= j < |seen| ==> LeftAfter(rows, seen[j], anchor, chunk, j + 1)
  }

  lemma OneFewer(j: nat, chunk: nat) returns (done: nat)
    requires j > 0
    ensures done == (j - 1) * chunk && done + chunk == j * chunk
  {
    done := (j - 1) * chunk;
  }

  /** That is what one statement could leave that deletes as much as all of them. */
  lemma {:induction false} StatementsCompose<V(!new)>(rows: Rows<V>, left: Rows<V>, anchor: int, chunk: nat, j: nat)
    requires Series(rows) && LeftAfter(rows, left, anchor, chunk, j)
    ensures IsChunk(rows, left, anchor, j * chunk)
    decreases j
  {
    if j > 0 {
      var mid :| LeftAfter(rows, mid, anchor, chunk, j - 1) && IsChunk(mid, left, anchor, chunk);
      StatementsCompose(rows, mid, anchor, chunk, j - 1);
      var done := OneFewer(j, chunk);
      ChunksCompose(rows, mid, left, anchor, done, chunk);
    }
  }

  /** Statements may take any stretch of rows before the anchor, one chunk each. */
  lemma {:induction false} StretchByChunks<V(!new)>(rows: Rows<V>, anchor: int, from: nat, chunk: nat, j: nat)
    requires Series(rows) && from + j * chunk <= |Until(rows, anchor)| <= |rows|
    ensures LeftAfter(rows, Without(rows, from, j * chunk), anchor, chunk, j)
    decreases j
  {
    if j == 0 {
      assert Without(rows, from, 0) == rows;
    } else {
      var done := OneFewer(j, chunk);
      StretchByChunks(rows, anchor, from, chunk, j - 1);
      StatementsCompose(rows, Without(rows, from, done), anchor, chunk, j - 1);
      NextStretch(rows, anchor, from, done, chunk);
    }
  }

  /** Behind a stretch that went, the next one may go. */
  lemma NextStretch<V>(rows: Rows<V>, anchor: int, from: nat, done: nat, chunk: nat)
    requires from + done + chunk <= |Until(rows, anchor)| <= |rows|
    requires IsChunk(rows, Without(rows, from, done), anchor, done)
    ensures IsChunk(Without(rows, from, done), Without(rows, from, done + chunk), anchor, chunk)
  {
    var mid := Without(rows, from, done);
    UntilRest(rows, anchor);
    UntilRest(mid, anchor);
    StretchIsChunk(mid, anchor, from, chunk);
    assert Without(mid, from, chunk) == Without(rows, from, done + chunk);
  }

  lemma AllLeft<V>(rows: Rows<V>, anchor: int)
    requires Series(rows) && |From(rows, anchor)| == |rows|
    ensures From(rows, anchor) == rows
  {
    var k := FromSuffix(rows, anchor);
  }

  lemma FromFits<V>(rows: Rows<V>, anchor: int)
    requires Series(rows)
    ensures |From(rows, anchor)| <= |rows| && Series(From(rows, anchor))
  {
    var k := FromSuffix(rows, anchor);
    forall i, j | k <= i < j < |rows| ensures Before(rows[i], rows[j]) {}
    var kept := From(rows, anchor);
    forall i, j | 0 <= i < j < |kept| ensures Before(kept[i], kept[j]) { assert Before(rows[k + i], rows[k + j]); }
  }

  /** Ranges from a time on read the same. */
  ghost predicate SameReads<V>(left: Rows<V>, rows: Rows<V>, e: int) {
    forall a, b :: e <= a ==> Between(left, a, b) == Between(rows, a, b)
  }

  /** Ranges from the earliest row of a series that holds some rows of another
      are whole exactly when it is the other from that row on. */
  lemma SameReadsExactly<V>(rows: Rows<V>, left: Rows<V>)
    requires Series(rows) && Series(left) && left != [] && rows != []
    ensures SameReads(left, rows, left[0].ts) <==> left == From(rows, left[0].ts)
  {
    var e := left[0].ts;
    if SameReads(left, rows, e) {
      var end := Max(left[|left| - 1].ts, rows[|rows| - 1].ts) + 1;
      AllBetween(left, e, end);
      AllBetween(rows, e, end);
      assert Between(left, e, end) == Between(rows, e, end);
      var k := FromSuffix(left, e);
      assert k == 0;
    }
    if left == From(rows, e) {
      forall a, b | e <= a ensures Between(left, a, b) == Between(rows, a, b) { BetweenFrom(rows, e, a, b); }
    }
  }

  /** What a reader sees while a trim is under way, some statements in: ranges
      from the earliest row that is left are whole exactly when the rows that
      went are the oldest. */
  lemma ReadsWhileTrimmedExactly<V>(rows: Rows<V>, left: Rows<V>, anchor: int, chunk: nat)
    requires Series(rows) && IsChunk(rows, left, anchor, chunk) && left != []
    ensures |left| <= |rows|
    ensures SameReads(left, rows, left[0].ts) <==> left == rows[|rows| - |left|..]
  {
    SameReadsExactly(rows, left);
    var k := FromSuffix(rows, left[0].ts);
    if left == rows[|rows| - |left|..] {
      SeriesRest(rows, |rows| - |left|);
      SplitFrom(rows, left[0].ts, |rows| - |left|);
    }
  }

  lemma SeriesRest<V>(rows: Rows<V>, k: nat)
    requires Series(rows) && k < |rows|
    ensures forall i :: 0 <= i < k ==> rows[i].ts < rows[k].ts
    ensures forall i :: k <= i < |rows| ==> rows[i].ts >= rows[k].ts
  {
    forall i | 0 <= i < k ensures rows[i].ts < rows[k].ts { assert Before(rows[i], rows[k]); }
    forall i | k <= i < |rows| ensures rows[i].ts >= rows[k].ts { if k < i { assert Before(rows[k], rows[i]); } }
  }

  /** The statement may leave rows that make no whole range. */
  ghost predicate LeavesHole<V>(rows: Rows<V>, left: Rows<V>, anchor: int, chunk: nat) {
    IsChunk(rows, left, anchor, chunk) && left != [] && !SameReads(left, rows, left[0].ts)
  }

  /** A trim may leave a hole for readers, between two statements, exactly when
      one statement does not delete all there is to delete: the oldest row may
      stay while newer ones go. */
  lemma HolePossibleExactly<V(!new)>(rows: Rows<V>, anchor: int, chunk: nat)
    requires Series(rows) && chunk > 0
    ensures (exists left :: LeavesHole(rows, left, anchor, chunk)) <==> chunk < |Until(rows, anchor)|
  {
    UntilRest(rows, anchor);
    if chunk < |Until(rows, anchor)| {
      var left := Without(rows, 1, chunk);
      StretchIsChunk(rows, anchor, 1, chunk);
      HoleAtFirst(rows, left, anchor, chunk);
    } else {
      forall left: Rows<V> | IsChunk(rows, left, anchor, chunk) && left != []
        ensures SameReads(left, rows, left[0].ts)
      {
        AllLeft(left, anchor);
        var k := FromSuffix(rows, anchor);
        ReadsWhileTrimmedExactly(rows, left, anchor, chunk);
      }
    }
  }

  /** The same after some statements: they may have left a hole exactly when
      they do not delete all there is to delete. */
  lemma HoleAfterExactly<V(!new)>(rows: Rows<V>, anchor: int, chunk: nat, j: nat)
    requires Series(rows) && chunk > 0 && j > 0
    ensures (exists left :: LeftAfter(rows, left, anchor, chunk, j) && LeavesHole(rows, left, anchor, j * chunk))
      <==> j * chunk < |Until(rows, anchor)|
  {
    UntilRest(rows, anchor);
    var all := j * chunk;
    assert all > 0;
    if all < |Until(rows, anchor)| {
      var left := Without(rows, 1, all);
      StretchByChunks(rows, anchor, 1, chunk, j);
      StatementsCompose(rows, left, anchor, chunk, j);
      HoleAtFirst(rows, left, anchor, all);
    } else {
      HolePossibleExactly(rows, anchor, all);
    }
  }

  /** The oldest row stays while the next ones go. */
  lemma HoleAtFirst<V>(rows: Rows<V>, left: Rows<V>, anchor: int, count: nat)
    requires Series(rows) && 0 < count && 1 + count <= |rows| && left == Without(rows, 1, count)
    requires IsChunk(rows, left, anchor, count)
    ensures LeavesHole(rows, left, anchor, count)
  {
    ReadsWhileTrimmedExactly(rows, left, anchor, count);
    assert Before(rows[0], rows[count]);
    assert rows[|rows| - |left|..][0] == rows[count] && left[0] == rows[0];
  }

  lemma {:induction false} AllBetween<V>(rows: Rows<V>, e: int, end: int)
    requires Series(rows) && (rows != [] ==> rows[|rows| - 1].ts < end)
    ensures Between(rows, e, end) == From(rows, e)
  {
    if rows != [] {
      SeriesFront(rows);
      AllBetween(rows[..|rows| - 1], e, end);
    }
  }

  // ---------------------------------------------------------------- reading

  datatype Result<+T> = Ok(value: T) | RuntimeError

  class Buffer<V(!new)> {
    var points: map<string, Rows<V>>

    constructor ()
      ensures Valid() && points == map[]
    {
      points := map[];
    }

    ghost predicate Valid()
      reads this
    {
      forall s :: s in points ==> Series(points[s])
    }

    function Of(s: string): Rows<V>
      reads this
    {
      if s in points then points[s] else []
    }

    /** Trim one signal, chunk by chunk; `pick` is what each statement leaves,
        and `seen` what readers meet behind each of them. */
    method TrimSignal(s: string, cutoff: int, chunk: nat, pick: Pick<V>)
      returns (deleted: nat, ghost seen: seq<Rows<V>>)
      requires Valid() && chunk > 0
      requires Picks(pick, chunk)
      modifies this
      ensures Valid() && points == if s in old(points) then old(points)[s := Of(s)] else old(points)
      ensures Of(s) == Trimmed(old(Of(s)), cutoff) && deleted == |old(Of(s))| - |Of(s)|
      ensures LatestBefore(old(Of(s)), cutoff - 1).None? ==> seen == []
      ensures LatestBefore(old(Of(s)), cutoff - 1).Some? ==>
        AreLeft(old(Of(s)), seen, LatestBefore(old(Of(s)), cutoff - 1).value.ts, chunk)
    {
      deleted, seen := 0, [];
      var newest := LatestBefore(Of(s), cutoff - 1);
      if newest.None? { return; }
      var anchor := newest.value.ts;
      var k := 0;
      while true
        invariant Valid() && s in points && From(Of(s), anchor) == From(old(Of(s)), anchor)
        invariant points == old(points)[s := Of(s)]
        invariant deleted == |old(Of(s))| - |Of(s)|
        invariant k == |seen| && LeftAfter(old(Of(s)), Of(s), anchor, chunk, k)
        invariant AreLeft(old(Of(s)), seen, anchor, chunk)
        decreases |Of(s)|
      {
        assert IsPick(pick, s, k, points[s], anchor, chunk);
        UntilRest(points[s], anchor);
        var left := pick(s, k, points[s], anchor);
        var count := |points[s]| - |left|;
        points, deleted, k := points[s := left], deleted + count, k + 1;
        seen := seen + [left];
        if count < chunk { break; }
      }
      AllLeft(points[s], anchor);
    }

    /** Trim every signal that has a horizon, in the order they are given; the
        others keep every point. */
    method Trim(signals: seq<string>, horizons: map<string, int>, now: int, chunk: nat, pick: Pick<V>)
      returns (deleted: nat)
      requires Valid() && chunk > 0
      requires Picks(pick, chunk)
      requires IsOrder(signals, horizons.Keys)
      modifies this
      ensures Valid()
      ensures points.Keys == old(points.Keys)
      ensures forall s :: s in points ==>
        points[s] == if s in horizons then Trimmed(old(points)[s], now - horizons[s]) else old(points)[s]
      ensures deleted == Gone(old(points), points, signals)
    {
      deleted := 0;
      for i := 0 to |signals|
        invariant Valid() && points.Keys == old(points.Keys)
        invariant TrimmedAt(old(points), points, First(signals, i), horizons, now)
        invariant deleted == Gone(old(points), points, signals[..i])
      {
        var more := TrimNext(signals, i, horizons, now, chunk, pick, old(points));
        deleted := deleted + more;
      }
      assert signals[..|signals|] == signals;
      FirstExactly(signals, |signals|);
    }

    /** Trim the next signal. */
    method TrimNext(signals: seq<string>, i: nat, horizons: map<string, int>, now: int, chunk: nat, pick: Pick<V>,
                    ghost began: map<string, Rows<V>>)
      returns (more: nat)
      requires Valid() && chunk > 0 && Picks(pick, chunk) && IsOrder(signals, horizons.Keys) && i < |signals|
      requires points.Keys == began.Keys && TrimmedAt(began, points, First(signals, i), horizons, now)
      modifies this
      ensures Valid() && points.Keys == began.Keys
      ensures TrimmedAt(began, points, First(signals, i + 1), horizons, now)
      ensures Gone(began, points, signals[..i + 1]) == Gone(began, old(points), signals[..i]) + more
    {
      var s := signals[i];
      NotFirst(signals, i, horizons.Keys);
      ghost var was := points;
      more := TrimOne(s, now - horizons[s], chunk, pick);
      assert s in was ==> was[s] == began[s];
      TrimmedTo(began, was, points, First(signals, i), s, horizons, now);
      GoneOne(began, was, points, signals, i);
    }

    /** Trim a signal, if it has points. */
    method TrimOne(s: string, cutoff: int, chunk: nat, pick: Pick<V>) returns (deleted: nat)
      requires Valid() && chunk > 0 && Picks(pick, chunk)
      modifies this
      ensures Valid() && points.Keys == old(points.Keys)
      ensures forall t :: t in points && t != s ==> points[t] == old(points)[t]
      ensures s in points ==> points[s] == Trimmed(old(points)[s], cutoff)
      ensures deleted == |old(Of(s))| - |Of(s)|
    {
      var more, _ := TrimSignal(s, cutoff, chunk, pick);
      deleted := more;
    }
  }

  /** The signals, each once. */
  ghost predicate IsOrder(signals: seq<string>, keys: set<string>) {
    && (forall s :: s in signals <==> s in keys)
    && forall i, j :: 0 <= i < j < |signals| ==> signals[i] != signals[j]
  }

  /** Some signals are trimmed, the others as they were. */
  ghost predicate TrimmedAt<V>(was: map<string, Rows<V>>, points: map<string, Rows<V>>, done: set<string>,
                               horizons: map<string, int>, now: int)
    requires was.Keys == points.Keys
  {
    forall s :: s in points ==>
      points[s] == if s in done && s in horizons then Trimmed(was[s], now - horizons[s]) else was[s]
  }

  /** The first so many signals. */
  function First(signals: seq<string>, n: nat): set<string>
    requires n <= |signals|
  {
    if n == 0 then {} else First(signals, n - 1) + {signals[n - 1]}
  }

  lemma NotFirst(signals: seq<string>, i: nat, keys: set<string>)
    requires IsOrder(signals, keys) && i < |signals|
    ensures signals[i] !in First(signals, i) && signals[i] in keys
  {
    FirstExactly(signals, i);
    assert signals[i] in signals;
  }

  lemma TrimmedTo<V>(was: map<string, Rows<V>>, points: map<string, Rows<V>>, more: map<string, Rows<V>>,
                     done: set<string>, s: string, horizons: map<string, int>, now: int)
    requires was.Keys == points.Keys == more.Keys && s in horizons && s !in done
    requires TrimmedAt(was, points, done, horizons, now)
    requires forall t :: t in more && t != s ==> more[t] == points[t]
    requires s in more ==> more[s] == Trimmed(points[s], now - horizons[s])
    ensures TrimmedAt(was, more, done + {s}, horizons, now)
  {
  }

  lemma {:induction false} FirstExactly(signals: seq<string>, n: nat)
    requires n <= |signals|
    ensures forall s :: s in First(signals, n) <==> exists i :: 0 <= i < n && signals[i] == s
  {
    if n > 0 { FirstExactly(signals, n - 1); }
  }

  /** How many rows the signals lost. */
  function Gone<V>(was: map<string, Rows<V>>, points: map<string, Rows<V>>, signals: seq<string>): int {
    if signals == [] then 0
    else
      var s := signals[|signals| - 1];
      Gone(was, points, signals[..|signals| - 1])
      + (if s in was && s in points then |was[s]| - |points[s]| else 0)
  }

  lemma {:induction false} GoneSame<V>(was: map<string, Rows<V>>, points: map<string, Rows<V>>,
                                       more: map<string, Rows<V>>, signals: seq<string>)
    requires points.Keys == more.Keys
    requires forall s :: s in signals && s in points ==> points[s] == more[s]
    ensures Gone(was, points, signals) == Gone(was, more, signals)
  {
    if signals != [] {
      assert signals[|signals| - 1] in signals;
      GoneSame(was, points, more, signals[..|signals| - 1]);
    }
  }

  lemma GoneOne<V>(was: map<string, Rows<V>>, points: map<string, Rows<V>>, more: map<string, Rows<V>>,
                   signals: seq<string>, i: nat)
    requires i < |signals| && was.Keys == points.Keys == more.Keys
    requires forall a, b :: 0 <= a < b < |signals| ==> signals[a] != signals[b]
    requires forall t :: t in more && t != signals[i] ==> more[t] == points[t]
    requires signals[i] in points ==> points[signals[i]] == was[signals[i]]
    ensures Gone(was, more, signals[..i + 1]) == Gone(was, points, signals[..i])
      + if signals[i] in was then |was[signals[i]]| - |more[signals[i]]| else 0
  {
    assert signals[i] !in signals[..i];
    GoneSame(was, points, more, signals[..i]);
    assert signals[..i + 1][..i] == signals[..i];
  }

  /** What a trim leaves of a series: the newest row before the cutoff, and
      everything behind it. */
  function Trimmed<V>(rows: Rows<V>, cutoff: int): Rows<V> {
    match LatestBefore(rows, cutoff - 1)
    case None => rows
    case Some(anchor) => From(rows, anchor.ts)
  }

  lemma {:induction false} LatestIs<V>(rows: Rows<V>, t: int)
    requires Series(rows)
    ensures LatestBefore(rows, t).Some? ==> LatestBefore(rows, t).value in rows && LatestBefore(rows, t).value.ts <= t
    ensures forall r :: r in rows && r.ts <= t ==> LatestBefore(rows, t).Some? && r.ts <= LatestBefore(rows, t).value.ts
  {
    if rows != [] {
      SeriesFront(rows);
      LatestIs(rows[..|rows| - 1], t);
      assert rows == rows[..|rows| - 1] + [rows[|rows| - 1]];
    }
  }

  /** A trim changes no latest value and no range at or after the cutoff, and
      leaves a suffix. */
  lemma TrimKeepsReads<V>(rows: Rows<V>, cutoff: int, t: int, end: int)
    requires Series(rows) && cutoff <= t
    ensures LatestBefore(Trimmed(rows, cutoff), t) == LatestBefore(rows, t)
    ensures Between(Trimmed(rows, cutoff), t, end) == Between(rows, t, end)
    ensures IsSuffix(Trimmed(rows, cutoff), rows)
  {
    var newest := LatestBefore(rows, cutoff - 1);
    LatestIs(rows, cutoff - 1);
    if newest.Some? {
      LatestKept(rows, newest.value.ts, t);
      BetweenFrom(rows, newest.value.ts, t, end);
      var k := FromSuffix(rows, newest.value.ts);
    } else {
      assert rows[0..] == rows;
    }
  }

  ghost predicate IsSuffix<V>(rows: Rows<V>, whole: Rows<V>) {
    exists k: nat :: k <= |whole| && rows == whole[k..]
  }

  // ---------------------------------------------------- buffer and historian

  /** A historian that holds a series up to a time. */
  ghost predicate Reaches<V>(whole: Rows<V>, read: (int, int) -> Rows<V>, to: Option<int>) {
    forall a, b, t :: a < b && t <= b && (to.Some? ==> t <= to.value) ==> Until(read(a, b), t) == Between(whole, a, t)
  }

  /** A buffer of a series, and a historian that holds what lies before it. */
  ghost predicate Serves<V>(whole: Rows<V>, buffer: Rows<V>, read: (int, int) -> Rows<V>) {
    && Series(whole)
    && (exists e :: buffer == From(whole, e))
    && Reaches(whole, read, Earliest(buffer))
  }

  lemma {:induction false} FromFrom<V>(rows: Rows<V>, a: int, b: int)
    ensures From(From(rows, a), b) == From(rows, Max(a, b))
  {
    if rows != [] {
      FromFrom(rows[..|rows| - 1], a, b);
      var kept := From(rows[..|rows| - 1], a);
      assert (kept + [rows[|rows| - 1]])[..|kept|] == kept;
      assert kept + [] == kept;
    }
  }

  /** A trimmed buffer and its historian still serve the whole series exactly
      when the historian holds what the trim took; one that holds everything
      before the cutoff does. */
  lemma TrimServes<V>(whole: Rows<V>, buffer: Rows<V>, read: (int, int) -> Rows<V>, cutoff: int)
    requires Serves(whole, buffer, read)
    ensures Serves(whole, Trimmed(buffer, cutoff), read) <==> Reaches(whole, read, Earliest(Trimmed(buffer, cutoff)))
    ensures Reaches(whole, read, Some(cutoff)) ==> Serves(whole, Trimmed(buffer, cutoff), read)
  {
    var e :| buffer == From(whole, e);
    FromFits(whole, e);
    LatestIs(buffer, cutoff - 1);
    var newest := LatestBefore(buffer, cutoff - 1);
    if newest.Some? {
      FromFrom(whole, e, newest.value.ts);
      TrimmedFrom(buffer, cutoff);
    }
  }

  /** What a historian answers that holds these rows. */
  function Reads<V>(held: Rows<V>): (int, int) -> Rows<V> { (a, b) => Between(held, a, b) }

  lemma {:induction false} UntilBetween<V>(rows: Rows<V>, a: int, b: int, t: int)
    requires t <= b
    ensures Until(Between(rows, a, b), t) == Between(rows, a, t)
  {
    if rows != [] {
      UntilBetween(rows[..|rows| - 1], a, b, t);
      var kept := Between(rows[..|rows| - 1], a, b);
      assert (kept + [rows[|rows| - 1]])[..|kept|] == kept;
      assert kept + [] == kept;
    }
  }

  /** It reaches up to a time exactly when it holds every row before it. */
  lemma ReachesExactly<V(!new)>(whole: Rows<V>, held: Rows<V>, to: Option<int>)
    requires Series(whole) && Series(held) && forall r :: r in held ==> r in whole
    ensures Reaches(whole, Reads(held), to) <==> forall r :: r in whole && (to.Some? ==> r.ts < to.value) ==> r in held
  {
    if Reaches(whole, Reads(held), to) {
      forall r | r in whole && (to.Some? ==> r.ts < to.value) ensures r in held {
        assert Until(Reads(held)(r.ts, r.ts + 1), r.ts + 1) == Between(whole, r.ts, r.ts + 1);
        UntilBetween(held, r.ts, r.ts + 1, r.ts + 1);
        BetweenExactly(whole, r.ts, r.ts + 1, r);
        BetweenExactly(held, r.ts, r.ts + 1, r);
      }
    }
    if forall r :: r in whole && (to.Some? ==> r.ts < to.value) ==> r in held {
      forall a, b, t | a < b && t <= b && (to.Some? ==> t <= to.value)
        ensures Until(Reads(held)(a, b), t) == Between(whole, a, t)
      {
        UntilBetween(held, a, b, t);
        SameRangeExactly(whole, held, a, t);
      }
    }
  }

  /** With a historian that holds some of the signal's rows, a trimmed buffer
      serves the whole series exactly when it holds each row the trim took. */
  lemma TrimServesExactly<V(!new)>(whole: Rows<V>, buffer: Rows<V>, held: Rows<V>, cutoff: int)
    requires Serves(whole, buffer, Reads(held)) && Series(held) && forall r :: r in held ==> r in whole
    ensures Serves(whole, Trimmed(buffer, cutoff), Reads(held))
      <==> forall r :: r in buffer && r !in Trimmed(buffer, cutoff) ==> r in held
  {
    TrimServes(whole, buffer, Reads(held), cutoff);
    ReachesExactly(whole, held, Earliest(buffer));
    ReachesExactly(whole, held, Earliest(Trimmed(buffer, cutoff)));
    var e :| buffer == From(whole, e);
    var newest := LatestBefore(buffer, cutoff - 1);
    if newest.Some? {
      FromFits(whole, e);
      TrimmedFrom(buffer, cutoff);
      forall r ensures r in buffer <==> r in whole && r.ts >= e { FromExactly(whole, e, r); }
      forall r ensures r in Trimmed(buffer, cutoff) <==> r in buffer && r.ts >= newest.value.ts {
        FromExactly(buffer, newest.value.ts, r);
      }
      assert buffer[0] in buffer;
    }
  }

  /** The anchor is the earliest row a trim leaves. */
  lemma TrimmedFrom<V>(buffer: Rows<V>, cutoff: int)
    requires Series(buffer) && LatestBefore(buffer, cutoff - 1).Some?
    ensures Earliest(Trimmed(buffer, cutoff)) == Some(LatestBefore(buffer, cutoff - 1).value.ts)
    ensures LatestBefore(buffer, cutoff - 1).value in buffer && LatestBefore(buffer, cutoff - 1).value.ts < cutoff
  {
    var newest := LatestBefore(buffer, cutoff - 1);
    LatestIs(buffer, cutoff - 1);
    FromExactly(buffer, newest.value.ts, newest.value);
    var k := FromSuffix(buffer, newest.value.ts);
    var i :| 0 <= i < |buffer| && buffer[i] == newest.value;
    assert k <= i;
    assert buffer[k].ts <= newest.value.ts by { if k < i { assert Before(buffer[k], buffer[i]); } }
  }

  /** Older rows from the historian, then the buffer's: the whole range, once. */
  lemma ReadThrough<V>(whole: Rows<V>, buffer: Rows<V>, read: (int, int) -> Rows<V>, start: int, end: int, to: int)
    requires Serves(whole, buffer, read)
    ensures buffer == [] && start < to && to >= end ==> Until(read(start, to), end) == Between(whole, start, end)
    ensures buffer != [] && start < buffer[0].ts && start < to && to >= Min(end, buffer[0].ts) ==>
      Until(read(start, to), Min(end, buffer[0].ts))
      + (if buffer[0].ts < end then Between(buffer, buffer[0].ts, end) else [])
      == Between(whole, start, end)
    ensures buffer != [] && start >= buffer[0].ts ==> Between(buffer, start, end) == Between(whole, start, end)
  {
    var e :| buffer == From(whole, e);
    if buffer != [] {
      var k := FromSuffix(whole, e);
      assert buffer[0] == whole[k];
      if start >= buffer[0].ts {
        BetweenFrom(whole, e, start, end);
      } else if start < to && to >= Min(end, buffer[0].ts) {
        if buffer[0].ts < end {
          BetweenFrom(whole, e, buffer[0].ts, end);
          BetweenJoins(whole, start, buffer[0].ts, end);
        }
      }
    }
  }

  /** A request for a signal: where its rows come from. */
  class Reader<V(!new)> {
    const buffer: Buffer<V>
    /** The historian's answer for a signal and a range, if there is one. */
    const historian: Option<(string, int, int) -> Rows<V>>

    constructor (buffer: Buffer<V>, historian: Option<(string, int, int) -> Rows<V>>)
      ensures this.buffer == buffer && this.historian == historian
    {
      this.buffer, this.historian := buffer, historian;
    }

    /** What is read of the buffer for a range: of the points it holds when they
        are read, `later`, from its earliest row on, which was read before. */
    function BufferPart(s: string, start: int, end: int, later: Rows<V>): Rows<V>
      reads this, buffer
    {
      var rows := buffer.Of(s);
      if rows == [] then []
      else if start < rows[0].ts then (if rows[0].ts < end then Between(later, rows[0].ts, end) else [])
      else Between(later, start, end)
    }

    /** Only rows a trim takes go between the two reads of a signal. */
    ghost predicate Thinned(s: string, later: Rows<V>)
      reads this, buffer
    {
      Series(later) && forall r :: r in later ==> r in buffer.Of(s)
    }

    /** Up to where the historian has to serve a range, if it has to. */
    function HistoryEnd(s: string, start: int, end: int): Option<int>
      reads this, buffer
    {
      var rows := buffer.Of(s);
      if rows == [] then Some(end) else if start < rows[0].ts then Some(Min(end, rows[0].ts)) else None
    }

    function Answer(s: string): (int, int) -> Rows<V>
      requires historian.Some?
    {
      (a, b) => historian.value(s, a, b)
    }

    /** A signal's whole series, of which the buffer holds the newest part and
        the historian what lies before. */
    ghost predicate IsWhole(s: string, whole: Rows<V>)
      requires historian.Some?
      reads this, buffer
    {
      Serves(whole, buffer.Of(s), Answer(s))
    }

    /** The older rows of a signal, as one read of the historian has them. */
    function OlderPart(s: string, start: int, end: int, last: int): Rows<V>
      requires historian.Some?
      reads this, buffer
    {
      if HistoryEnd(s, start, end).None? || last <= start then []
      else Until(historian.value(s, start, last), HistoryEnd(s, start, end).value)
    }

    /** One read that reaches far enough serves a signal's whole range, exactly
        when no row of it goes between the reads of the buffer. */
    lemma PartsAreWhole(s: string, whole: Rows<V>, start: int, end: int, last: int, later: Rows<V>)
      requires historian.Some? && IsWhole(s, whole) && last >= start && Thinned(s, later) && buffer.Valid()
      requires HistoryEnd(s, start, end).Some? ==> HistoryEnd(s, start, end).value <= last
      ensures OlderPart(s, start, end, last) + BufferPart(s, start, end, later) == Between(whole, start, end)
        <==> Stay(buffer.Of(s), later, start, end)
    {
      var rows := buffer.Of(s);
      ReadThrough(whole, rows, Answer(s), start, end, last);
      if last <= start && HistoryEnd(s, start, end).Some? { BetweenNothing(whole, start, end); }
      var older := OlderPart(s, start, end, last);
      assert older + BufferPart(s, start, end, rows) == Between(whole, start, end);
      PartIsBuffer(s, start, end, later);
      PartIsBuffer(s, start, end, rows);
      SameRangeExactly(rows, later, start, end);
      if older + BufferPart(s, start, end, later) == older + BufferPart(s, start, end, rows) {
        SameTail(older, BufferPart(s, start, end, later), BufferPart(s, start, end, rows));
      }
    }

    lemma SameTail(older: Rows<V>, a: Rows<V>, b: Rows<V>)
      requires older + a == older + b
      ensures a == b
    {
      assert (older + a)[|older|..] == a && (older + b)[|older|..] == b;
    }

    /** The buffer's part is what it holds of the range. */
    lemma PartIsBuffer(s: string, start: int, end: int, later: Rows<V>)
      requires buffer.Valid() && Thinned(s, later)
      ensures BufferPart(s, start, end, later) == Between(later, start, end)
    {
      var rows := buffer.Of(s);
      SomeIn(later, rows);
      if rows != [] && start < rows[0].ts {
        forall i | 0 <= i < |later| ensures rows[0].ts <= later[i].ts {
          assert later[i] in rows;
          var k :| 0 <= k < |rows| && rows[k] == later[i];
          if k > 0 { assert Before(rows[0], rows[k]); }
        }
        BelowNothing(later, start, rows[0].ts);
        if rows[0].ts < end { BetweenJoins(later, start, rows[0].ts, end); } else { BelowNothing(later, start, end); }
      }
    }

    lemma {:induction false} BelowNothing(rows: Rows<V>, a: int, b: int)
      requires forall i :: 0 <= i < |rows| ==> rows[i].ts >= b
      ensures Between(rows, a, b) == []
    {
      if rows != [] { BelowNothing(rows[..|rows| - 1], a, b); }
    }

    /** What the buffer serves of each signal, and up to where the historian
        has to be read for all of them. */
    method Gather(signals: seq<string>, start: int, end: int, refuse: bool, later: string -> Rows<V>)
      returns (refused: bool, out: map<string, Rows<V>>, last: int)
      ensures refused <==> exists s :: s in signals && refuse && Short(s, start)
      ensures !refused ==> (forall s :: s in out <==> s in signals) && forall s :: s in out ==>
        out[s] == BufferPart(s, start, end, later(s))
      ensures !refused ==> last >= start
      ensures !refused ==> forall s :: s in signals && HistoryEnd(s, start, end).Some? ==>
        HistoryEnd(s, start, end).value <= last
    {
      out, last := map[], start;
      for i := 0 to |signals|
        invariant forall s :: s in signals[..i] ==> !(refuse && Short(s, start))
        invariant (forall s :: s in out <==> s in signals[..i]) && forall s :: s in out ==>
          out[s] == BufferPart(s, start, end, later(s))
        invariant last >= start
        invariant forall s :: s in signals[..i] && HistoryEnd(s, start, end).Some? ==>
          HistoryEnd(s, start, end).value <= last
      {
        var s := signals[i];
        if refuse && Short(s, start) { return true, out, last; }
        last := Max(last, HistoryEnd(s, start, end).GetOr(start));
        out := out[s := BufferPart(s, start, end, later(s))];
      }
      assert signals[..|signals|] == signals;
      refused := false;
    }

    /** The range reaches before what the buffer holds. */
    predicate Short(s: string, start: int)
      reads this, buffer
    {
      buffer.Of(s) != [] && start < buffer.Of(s)[0].ts
    }

    /** `fetch_many`: the buffer where it holds the range, one read of the
        historian for what lies before it. `later` is what the buffer still
        holds of a signal when its points are read, behind its earliest row.
        The answer is a signal's whole range exactly when no row of it went
        between the two. */
    method FetchMany(signals: seq<string>, start: int, end: int, clamp: bool, history: bool, later: string -> Rows<V>)
      returns (r: Result<map<string, Rows<V>>>)
      requires buffer.Valid() && forall s :: Thinned(s, later(s))
      ensures r.RuntimeError?
        <==> !clamp && !(history && historian.Some?)
             && exists s :: s in signals && buffer.Of(s) != [] && start < buffer.Of(s)[0].ts
      ensures r.Ok? ==> forall s :: s in r.value <==> s in signals
      ensures r.Ok? && !(history && historian.Some?) ==> forall s :: s in signals ==>
        r.value[s] == Between(later(s), start, end)
      ensures r.Ok? && history && historian.Some? ==> forall s, whole :: s in signals && IsWhole(s, whole) ==>
        (r.value[s] == Between(whole, start, end) <==> Stay(buffer.Of(s), later(s), start, end))
    {
      var served := history && historian.Some?;
      var refused, parts, last := Gather(signals, start, end, !clamp && !served, later);
      if refused { return RuntimeError; }
      if !served {
        forall s | s in signals ensures parts[s] == Between(later(s), start, end) {
          PartIsBuffer(s, start, end, later(s));
        }
        return Ok(parts);
      }
      var whole := map s | s in parts :: OlderPart(s, start, end, last) + parts[s];
      forall s, all | s in signals && IsWhole(s, all)
        ensures whole[s] == Between(all, start, end) <==> Stay(buffer.Of(s), later(s), start, end)
      {
        PartsAreWhole(s, all, start, end, last, later(s));
      }
      return Ok(whole);
    }
  }
}
