/** A rolling estimate of how far a source's clock is ahead of the node's.

    Times are counted in a unit in which every one at hand is whole. */
module SourceClock {
  import opened Options

  /** The readings of one minute. */
  datatype Bucket = Bucket(key: int, maxSkew: Option<int>, measured: nat, stamped: nat, unstamped: nat, invalid: nat)

  /** A reading's source timestamp: none, not finite, or a time. */
  datatype Stamp = Absent | NotFinite | At(ts: int)

  datatype Status = Status(skew: Option<int>, jitter: Option<int>, minutes: nat)

  // -------------------------------------------------------------- estimates

  predicate Ordered(s: seq<int>) {
    forall i, j :: 0 <= i < j < |s| ==> s[i] <= s[j]
  }

  /** `sorted`, by insertion. */
  function Sort(s: seq<int>): (r: seq<int>)
    ensures |r| == |s|
  {
    if s == [] then [] else Insert(Sort(s[..|s| - 1]), s[|s| - 1])
  }

  function Insert(s: seq<int>, x: int): (r: seq<int>)
    ensures |r| == |s| + 1
  {
    if s == [] || s[|s| - 1] <= x then s + [x] else Insert(s[..|s| - 1], x) + [s[|s| - 1]]
  }

  lemma {:induction false} InsertKeeps(s: seq<int>, x: int)
    ensures multiset(Insert(s, x)) == multiset(s) + multiset{x}
  {
    if s != [] && s[|s| - 1] > x {
      InsertKeeps(s[..|s| - 1], x);
      assert s == s[..|s| - 1] + [s[|s| - 1]];
    }
  }

  lemma {:induction false} InsertOrders(s: seq<int>, x: int)
    requires Ordered(s)
    ensures Ordered(Insert(s, x))
  {
    if s != [] && s[|s| - 1] > x {
      var front, last := s[..|s| - 1], s[|s| - 1];
      InsertOrders(front, x);
      InsertKeeps(front, x);
      var r := Insert(front, x);
      forall i | 0 <= i < |r| ensures r[i] <= last {
        assert r[i] in multiset(r);
        assert r[i] == x || r[i] in front;
      }
    }
  }

  lemma {:induction false} SortOrders(s: seq<int>)
    ensures Ordered(Sort(s)) && multiset(Sort(s)) == multiset(s)
  {
    if s != [] {
      SortOrders(s[..|s| - 1]);
      InsertOrders(Sort(s[..|s| - 1]), s[|s| - 1]);
      InsertKeeps(Sort(s[..|s| - 1]), s[|s| - 1]);
      assert s == s[..|s| - 1] + [s[|s| - 1]];
    }
  }

  /** How many values lie above a bound. */
  function Above(s: seq<int>, x: int): nat {
    if s == [] then 0 else Above(s[..|s| - 1], x) + (if s[|s| - 1] > x then 1 else 0)
  }

  lemma {:induction false} AboveJoins(a: seq<int>, b: seq<int>, x: int)
    ensures Above(a + b, x) == Above(a, x) + Above(b, x)
  {
    if b == [] {
      assert a + b == a;
    } else {
      assert (a + b)[..|a + b| - 1] == a + b[..|b| - 1];
      AboveJoins(a, b[..|b| - 1], x);
    }
  }

  lemma {:induction false} AboveOfSame(a: seq<int>, b: seq<int>, x: int)
    requires multiset(a) == multiset(b)
    ensures Above(a, x) == Above(b, x)
  {
    if a == [] {
      assert |multiset(b)| == 0;
    } else {
      var last := a[|a| - 1];
      assert a == a[..|a| - 1] + [last];
      assert last in multiset(b);
      var k :| 0 <= k < |b| && b[k] == last;
      assert b == b[..k] + [last] + b[k + 1..];
      assert multiset(a[..|a| - 1]) == multiset(a) - multiset{last};
      assert multiset(b[..k] + b[k + 1..]) == multiset(b) - multiset{last} by {
        assert multiset(b[..k] + [last] + b[k + 1..]) == multiset(b[..k]) + multiset{last} + multiset(b[k + 1..]);
      }
      AboveOfSame(a[..|a| - 1], b[..k] + b[k + 1..], x);
      AboveJoins(b[..k], b[k + 1..], x);
      AboveJoins(b[..k] + [last], b[k + 1..], x);
      AboveJoins(b[..k], [last], x);
      AboveJoins(a[..|a| - 1], [last], x);
    }
  }

  lemma {:induction false} AboveOrdered(s: seq<int>, x: int)
    requires Ordered(s)
    ensures Above(s, x) <= |s| && forall i :: 0 <= i < |s| ==> (s[i] > x <==> i >= |s| - Above(s, x))
  {
    if s != [] {
      AboveOrdered(s[..|s| - 1], x);
      if s[|s| - 1] <= x { assert forall i :: 0 <= i < |s| - 1 ==> s[i] <= s[|s| - 1]; }
    }
  }

  /** The second largest of some values is at most a bound exactly when at most
      one of them is above it. */
  lemma SecondLargest(s: seq<int>, x: int)
    requires |s| >= 2
    ensures Sort(s)[|s| - 2] <= x <==> Above(s, x) <= 1
  {
    SortOrders(s);
    AboveOfSame(s, Sort(s), x);
    AboveOrdered(Sort(s), x);
  }

  /** The second smallest is above a bound exactly when at most one of them is
      not. */
  lemma SecondSmallest(s: seq<int>, x: int)
    requires |s| >= 2
    ensures Sort(s)[1] > x <==> |s| - Above(s, x) <= 1
  {
    SortOrders(s);
    AboveOfSame(s, Sort(s), x);
    AboveOrdered(Sort(s), x);
  }

  lemma BothSeconds(s: seq<int>)
    requires |s| >= 3
    ensures Sort(s)[1] <= Sort(s)[|s| - 2]
    ensures forall x :: Sort(s)[|s| - 2] <= x <==> Above(s, x) <= 1
    ensures forall x :: Sort(s)[1] > x <==> |s| - Above(s, x) <= 1
  {
    SortOrders(s);
    forall x ensures Sort(s)[|s| - 2] <= x <==> Above(s, x) <= 1 { SecondLargest(s, x); }
    forall x ensures Sort(s)[1] > x <==> |s| - Above(s, x) <= 1 { SecondSmallest(s, x); }
  }

  // ----------------------------------------------------------------- clock

  /** The bucket a time falls in, and the last one that is out of the window. */
  function KeyOf(t: int, bucket: int): int
    requires bucket > 0
  {
    t / bucket
  }

  /** `ceil(window / bucket)`. */
  function Slots(window: int, bucket: int): int
    requires bucket > 0
  {
    -((-window) / bucket)
  }

  /** Between the bucket of a time and the last expired one there are at least
      one and at most so many. */
  lemma SlotsBetween(t: int, window: int, bucket: int)
    requires 0 < bucket <= window
    ensures 1 <= KeyOf(t, bucket) - KeyOf(t - window, bucket) <= Slots(window, bucket)
  {
    var q, p, s := t / bucket, (t - window) / bucket, -((-window) / bucket);
    assert t == q * bucket + t % bucket;
    assert t - window == p * bucket + (t - window) % bucket;
    assert -window == -s * bucket + (-window) % bucket;
    assert (-s) * bucket == -(s * bucket);
    assert (q - p) * bucket == q * bucket - p * bucket;
    if q - p < 1 { Product(q - p, 0, bucket); }
    assert (s + 1) * bucket == s * bucket + bucket;
    if q - p > s { Product(s + 1, q - p, bucket); }
  }

  lemma Product(a: int, b: int, c: int)
    requires a <= b && c >= 0
    ensures a * c <= b * c
  {
    assert b * c - a * c == (b - a) * c;
  }

  lemma KeysGrow(t: int, u: int, bucket: int)
    requires t <= u && bucket > 0
    ensures KeyOf(t, bucket) <= KeyOf(u, bucket)
  {
    var q, p := t / bucket, u / bucket;
    assert t == q * bucket + t % bucket && u == p * bucket + u % bucket;
    assert (p + 1) * bucket == p * bucket + bucket;
    if q > p { Product(p + 1, q, bucket); }
  }

  predicate Older(a: Bucket, b: Bucket) { a.key < b.key }

  /** One bucket per minute, oldest first. */
  ghost predicate Minutes(buckets: seq<Bucket>) {
    forall i, j {:trigger Older(buckets[i], buckets[j])} :: 0 <= i < j < |buckets| ==> Older(buckets[i], buckets[j])
  }

  /** So many minutes fit between two keys. */
  lemma {:induction false} MinutesFit(buckets: seq<Bucket>, lo: int, hi: int)
    requires Minutes(buckets) && lo <= hi && forall i :: 0 <= i < |buckets| ==> lo < buckets[i].key <= hi
    ensures |buckets| <= hi - lo
  {
    if buckets != [] {
      var front, last := buckets[..|buckets| - 1], buckets[|buckets| - 1];
      forall i, j | 0 <= i < j < |front| ensures Older(front[i], front[j]) { assert Older(buckets[i], buckets[j]); }
      forall i | 0 <= i < |front| ensures front[i].key <= last.key - 1 { assert Older(buckets[i], last); }
      MinutesFit(front, lo, last.key - 1);
    }
  }

  /** No minute has two buckets. */
  ghost predicate Separate(buckets: seq<Bucket>) {
    forall i, j {:trigger buckets[i], buckets[j]} :: 0 <= i < j < |buckets| ==> buckets[i].key != buckets[j].key
  }

  /** What expiring leaves, in order. */
  function Unexpired(buckets: seq<Bucket>, oldest: int): seq<Bucket> {
    if buckets == [] then []
    else
      var last := buckets[|buckets| - 1];
      Unexpired(buckets[..|buckets| - 1], oldest) + (if last.key > oldest then [last] else [])
  }

  lemma {:induction false} UnexpiredExactly(buckets: seq<Bucket>, oldest: int, b: Bucket)
    ensures b in Unexpired(buckets, oldest) <==> b in buckets && b.key > oldest
  {
    if buckets != [] {
      UnexpiredExactly(buckets[..|buckets| - 1], oldest, b);
      assert buckets == buckets[..|buckets| - 1] + [buckets[|buckets| - 1]];
    }
  }

  /** Expiring keeps the order, and the minutes apart. */
  lemma {:induction false} UnexpiredOrder(buckets: seq<Bucket>, oldest: int)
    ensures Minutes(buckets) ==> Minutes(Unexpired(buckets, oldest))
    ensures Separate(buckets) ==> Separate(Unexpired(buckets, oldest))
  {
    if buckets != [] {
      var front, last := buckets[..|buckets| - 1], buckets[|buckets| - 1];
      UnexpiredOrder(front, oldest);
      assert Minutes(buckets) ==> forall i, j :: 0 <= i < j < |front| ==> Older(buckets[i], buckets[j]);
      var kept, all := Unexpired(front, oldest), Unexpired(buckets, oldest);
      forall i | 0 <= i < |kept|
        ensures Minutes(buckets) ==> kept[i].key < last.key
        ensures Separate(buckets) ==> kept[i].key != last.key
      {
        UnexpiredExactly(front, oldest, kept[i]);
        var k :| 0 <= k < |front| && front[k] == kept[i];
        assert Minutes(buckets) ==> Older(buckets[k], buckets[|buckets| - 1]);
        assert buckets[k] == front[k];
      }
      assert Minutes(buckets) ==> Minutes(front) by {
        if Minutes(buckets) {
          forall i, j | 0 <= i < j < |front| ensures Older(front[i], front[j]) { assert Older(buckets[i], buckets[j]); }
        }
      }
      if Minutes(buckets) {
        forall i, j | 0 <= i < j < |all| ensures Older(all[i], all[j]) {
          if j < |kept| { assert Older(kept[i], kept[j]); }
        }
      }
    }
  }

  /** The estimates of the minutes that have one. */
  function Estimates(buckets: seq<Bucket>): seq<int> {
    if buckets == [] then []
    else
      var last := buckets[|buckets| - 1];
      Estimates(buckets[..|buckets| - 1]) + (if last.maxSkew.Some? then [last.maxSkew.value] else [])
  }

  /** Estimates above a bound come from buckets above it. */
  lemma {:induction false} AboveNone(buckets: seq<Bucket>, x: int)
    requires forall i :: 0 <= i < |buckets| ==> buckets[i].maxSkew.GetOr(x) <= x
    ensures Above(Estimates(buckets), x) == 0
  {
    if buckets != [] {
      AboveNone(buckets[..|buckets| - 1], x);
      var last := buckets[|buckets| - 1].maxSkew;
      AboveJoins(Estimates(buckets[..|buckets| - 1]), if last.Some? then [last.value] else [], x);
    }
  }

  lemma {:induction false} AboveOne(buckets: seq<Bucket>, x: int, k: int)
    requires forall i :: 0 <= i < |buckets| && i != k ==> buckets[i].maxSkew.GetOr(x) <= x
    ensures Above(Estimates(buckets), x) <= 1
  {
    if buckets != [] {
      var front, last := buckets[..|buckets| - 1], buckets[|buckets| - 1];
      if k == |buckets| - 1 { AboveNone(front, x); } else { AboveOne(front, x, k); }
      AboveJoins(Estimates(front), if last.maxSkew.Some? then [last.maxSkew.value] else [], x);
      assert Above([last.maxSkew.GetOr(x)][..0], x) == 0;
    }
  }

  lemma {:induction false} AboveAtLeast(buckets: seq<Bucket>, x: int, j: nat)
    requires j < |buckets| && buckets[j].maxSkew.Some? && buckets[j].maxSkew.value > x
    ensures Above(Estimates(buckets), x) >= 1
  {
    var front, last := buckets[..|buckets| - 1], buckets[|buckets| - 1];
    AboveJoins(Estimates(front), if last.maxSkew.Some? then [last.maxSkew.value] else [], x);
    if j < |front| { AboveAtLeast(front, x, j); }
  }

  lemma {:induction false} AboveTwo(buckets: seq<Bucket>, x: int, i: nat, j: nat)
    requires i < j < |buckets|
    requires buckets[i].maxSkew.Some? && buckets[i].maxSkew.value > x
    requires buckets[j].maxSkew.Some? && buckets[j].maxSkew.value > x
    ensures Above(Estimates(buckets), x) >= 2
  {
    var front, last := buckets[..|buckets| - 1], buckets[|buckets| - 1];
    AboveJoins(Estimates(front), if last.maxSkew.Some? then [last.maxSkew.value] else [], x);
    if j < |front| { AboveTwo(front, x, i, j); } else { AboveAtLeast(front, x, i); }
  }

  /** Buckets with a new one, which is in the window. */
  lemma JustAdded(before: seq<Bucket>, b: Bucket, oldest: int)
    requires b.key > oldest
    ensures b in Unexpired(before + [b], oldest)
    ensures forall x :: x in Unexpired(before + [b], oldest) ==> x in before || x == b
  {
    UnexpiredExactly(before + [b], oldest, b);
    forall x | x in Unexpired(before + [b], oldest) ensures x in before || x == b {
      UnexpiredExactly(before + [b], oldest, x);
    }
  }

  /** What a reading is counted as. */
  datatype Kind = Unstamped | Invalid | NotNew | Measured(skew: int)

  /** A bucket with one more reading: as stamped or as unstamped, and as invalid
      or measured when it is that. */
  function Counted(b: Bucket, kind: Kind): (c: Bucket)
    ensures c.key == b.key && c.stamped + c.unstamped == b.stamped + b.unstamped + 1
    ensures c.unstamped > b.unstamped <==> kind.Unstamped?
    ensures c.invalid - b.invalid == (if kind.Invalid? then 1 else 0)
    ensures c.measured - b.measured == (if kind.Measured? then 1 else 0)
  {
    match kind
    case Unstamped => b.(unstamped := b.unstamped + 1)
    case Invalid => b.(stamped := b.stamped + 1, invalid := b.invalid + 1)
    case NotNew => b.(stamped := b.stamped + 1)
    case Measured(skew) =>
      b.(stamped := b.stamped + 1, measured := b.measured + 1, maxSkew := Some(Max(b.maxSkew.GetOr(skew), skew)))
  }

  function Empty(key: int): Bucket {
    Bucket(key, None, 0, 0, 0, 0)
  }

  ghost predicate NoneAt(buckets: seq<Bucket>, key: int) {
    forall b :: b in buckets ==> b.key != key
  }

  /** The bucket of a minute is what it was, or an empty one, with a reading
      counted in it; of the others none is new. */
  ghost predicate CountedIn(was: seq<Bucket>, buckets: seq<Bucket>, key: int, kind: Kind) {
    && (exists b :: (b in was || (b == Empty(key) && NoneAt(was, key))) && b.key == key && Counted(b, kind) in buckets)
    && (forall b :: b in buckets && b.key != key ==> b in was)
  }

  class Clock {
    const live: bool
    const window: int
    const bucket: int
    const minMinutes: int
    const plausible: int
    /** When an unset clock ends, in the unit of the times. */
    const earliest: int

    var buckets: seq<Bucket>
    var lastStamp: map<string, int>

    /** How far the source's clock really is ahead, the minutes that hold bad
        readings, and those with a measured reading that had no delay. */
    ghost const offset: int
    ghost var bad: set<int>
    ghost var exact: set<int>
    /** Whether receive times never went back, the last one, and the one the
        newest bucket was made at. */
    ghost var steady: bool
    ghost var latest: Option<int>
    ghost var made: int

    /** A window of at least one bucket, and one minute to spare at each end. */
    constructor (live: bool, window: int, bucket: int, minMinutes: int, plausible: int, earliest: int,
                 ghost offset: int)
      requires 0 < bucket <= window && minMinutes >= 3
      ensures Valid() && buckets == [] && steady && latest.None?
      ensures this.live == live && this.window == window && this.bucket == bucket && this.minMinutes == minMinutes
      ensures this.offset == offset && bad == exact == {}
    {
      this.live, this.window, this.bucket, this.minMinutes := live, window, bucket, minMinutes;
      this.plausible, this.earliest, this.offset := plausible, earliest, offset;
      buckets, lastStamp, bad, exact, steady, latest, made := [], map[], {}, {}, true, None, 0;
    }

    ghost predicate Valid()
      reads this
    {
      && 0 < bucket <= window && minMinutes >= 3
      && Separate(buckets)
      && (forall i :: 0 <= i < |buckets| ==> Sound(buckets[i]))
      && (steady ==> Recent())
    }

    /** A minute's estimate is no more than the offset, unless a bad reading is
        in it, and no less once a reading without delay is. */
    ghost predicate Sound(b: Bucket)
      reads this
    {
      && (b.key !in bad ==> b.maxSkew.GetOr(offset) <= offset)
      && (b.key in exact ==> b.maxSkew.Some? && b.maxSkew.value >= offset)
      && b.measured + b.invalid <= b.stamped
      && (b.maxSkew.Some? <==> b.measured > 0)
    }

    /** The buckets are in order and in the window of the newest one. */
    ghost predicate Recent()
      reads this
      requires 0 < bucket <= window
    {
      && Minutes(buckets)
      && (forall i :: 0 <= i < |buckets| ==> KeyOf(made - window, bucket) < buckets[i].key <= KeyOf(made, bucket))
      && (buckets != [] ==> latest.Some? && made <= latest.value)
    }

    /** Over every run in which receive times never go back. */
    lemma Bounded()
      requires Valid() && steady
      ensures |buckets| <= Slots(window, bucket)
    {
      SlotsBetween(made, window, bucket);
      if buckets != [] { MinutesFit(buckets, KeyOf(made - window, bucket), KeyOf(made, bucket)); }
    }

    method Expire(now: int)
      requires Valid()
      modifies this`buckets
      ensures Valid() && buckets == Unexpired(old(buckets), KeyOf(now - window, bucket))
    {
      var oldest := KeyOf(now - window, bucket);
      UnexpiredOrder(buckets, oldest);
      forall b | b in Unexpired(buckets, oldest) ensures b in buckets && b.key > oldest {
        UnexpiredExactly(buckets, oldest, b);
      }
      buckets := Unexpired(buckets, oldest);
      forall i | 0 <= i < |buckets| ensures Sound(buckets[i]) { assert buckets[i] in buckets; }
    }

    /** The bucket of a minute, if there is one. */
    method Find(key: int) returns (i: nat)
      ensures i <= |buckets| && (i < |buckets| ==> buckets[i].key == key)
      ensures i == |buckets| ==> forall j :: 0 <= j < |buckets| ==> buckets[j].key != key
    {
      i := 0;
      while i < |buckets| && buckets[i].key != key
        invariant i <= |buckets| && forall j :: 0 <= j < i ==> buckets[j].key != key
      {
        i := i + 1;
      }
    }

    /** Time goes on, or back. */
    ghost method Receive(receivedAt: int)
      requires Valid()
      modifies this`steady, this`latest
      ensures Valid() && latest == Some(receivedAt)
      ensures steady == (old(steady) && (old(latest).None? || receivedAt >= old(latest).value))
      ensures steady ==> forall j :: 0 <= j < |buckets| ==> buckets[j].key <= KeyOf(receivedAt, bucket)
    {
      ghost var forward := steady && (latest.None? || receivedAt >= latest.value);
      if forward && buckets != [] { KeysGrow(made, receivedAt, bucket); }
      steady, latest := forward, Some(receivedAt);
    }

    /** The bucket of a receive time; a new one expires what is out of the
        window, never itself. */
    method BucketAt(receivedAt: int) returns (i: nat)
      requires Valid()
      modifies this`buckets, this`made, this`steady, this`latest, this`exact
      ensures Valid() && (old(buckets) == buckets ==> exact == old(exact))
      ensures i < |buckets| && buckets[i].key == KeyOf(receivedAt, bucket)
      ensures buckets[i] in old(buckets)
        || (buckets[i] == Empty(KeyOf(receivedAt, bucket)) && NoneAt(old(buckets), KeyOf(receivedAt, bucket)))
      ensures forall b :: b in buckets && b.key != KeyOf(receivedAt, bucket) ==> b in old(buckets)
      ensures steady == (old(steady) && (old(latest).None? || receivedAt >= old(latest).value))
      ensures latest == Some(receivedAt)
    {
      Receive(receivedAt);
      var key := KeyOf(receivedAt, bucket);
      i := Find(key);
      if i < |buckets| { return; }
      var b := Empty(key);
      ghost var before := buckets;
      Append(b, receivedAt);
      SlotsBetween(receivedAt, window, bucket);
      JustAdded(before, b, KeyOf(receivedAt - window, bucket));
      i := Find(key);
      assert buckets[i] in buckets;
    }

    /** A new, empty bucket, and what it expires. */
    method Append(b: Bucket, now: int)
      requires Valid() && b.key == KeyOf(now, bucket) && b.maxSkew.None? && b.measured == 0 && b.invalid == 0
      requires forall j :: 0 <= j < |buckets| ==> buckets[j].key != b.key
      requires steady ==> latest == Some(now) && forall j :: 0 <= j < |buckets| ==> buckets[j].key <= b.key
      modifies this`buckets, this`made, this`exact
      ensures Valid() && buckets == Unexpired(old(buckets) + [b], KeyOf(now - window, bucket))
      ensures exact == old(exact) - {b.key}
    {
      var oldest := KeyOf(now - window, bucket);
      var all := buckets + [b];
      if steady {
        forall i, j | 0 <= i < j < |all| ensures Older(all[i], all[j]) {
          assert j < |buckets| ==> Older(buckets[i], buckets[j]);
        }
      }
      UnexpiredOrder(all, oldest);
      forall x | x in Unexpired(all, oldest) ensures (x in buckets || x == b) && x.key > oldest {
        UnexpiredExactly(all, oldest, x);
      }
      buckets, made, exact := Unexpired(all, oldest), now, exact - {b.key};
      forall i | 0 <= i < |buckets|
        ensures Sound(buckets[i]) && buckets[i].key > oldest && (buckets[i].key <= b.key || !steady)
      {
        assert buckets[i] in buckets;
      }
    }

    /** Whether a reading feeds the estimate: stamped by a set clock, with a
        timestamp that is new for its topic and plausible, of a live driver. */
    predicate Measures(topic: string, stamp: Stamp, receivedAt: int)
      reads this`lastStamp
    {
      && stamp.At? && stamp.ts >= earliest && live
      && topic in lastStamp && lastStamp[topic] != stamp.ts
      && -plausible <= stamp.ts - receivedAt <= plausible
    }

    /** A reading whose source's clock is ahead by the offset and which took
        some time to arrive. */
    ghost predicate Good(stamp: Stamp, receivedAt: int) {
      stamp.At? ==> stamp.ts - receivedAt <= offset
    }

    /** Put a changed bucket back. */
    method Put(i: nat, b: Bucket)
      requires Valid() && i < |buckets| && b.key == buckets[i].key && Sound(b)
      modifies this`buckets
      ensures Valid() && buckets == old(buckets)[i := b]
    {
      if steady {
        var next := buckets[i := b];
        forall j, k | 0 <= j < k < |next| ensures Older(next[j], next[k]) { assert Older(buckets[j], buckets[k]); }
      }
      buckets := buckets[i := b];
    }

    /** One reading; `bad` notes the minutes that hold one that is not good. */
    method Observe(topic: string, stamp: Stamp, receivedAt: int) returns (measured: bool)
      requires Valid()
      modifies this`buckets, this`lastStamp, this`bad, this`exact, this`made, this`steady, this`latest
      ensures Valid()
      ensures measured <==> old(Measures(topic, stamp, receivedAt))
      ensures bad == if Good(stamp, receivedAt) then old(bad) else old(bad) + {KeyOf(receivedAt, bucket)}
      ensures measured && stamp.ts - receivedAt == offset ==> KeyOf(receivedAt, bucket) in exact
      ensures lastStamp == if stamp.At? && stamp.ts >= earliest then old(lastStamp)[topic := stamp.ts]
                           else old(lastStamp)
      ensures CountedIn(old(buckets), buckets, KeyOf(receivedAt, bucket), old(KindOf(topic, stamp, receivedAt)))
      ensures steady == (old(steady) && (old(latest).None? || receivedAt >= old(latest).value))
      ensures latest == Some(receivedAt)
    {
      var kind := KindOf(topic, stamp, receivedAt);
      if stamp.At? && stamp.ts >= earliest { lastStamp := lastStamp[topic := stamp.ts]; }
      Record(kind, receivedAt, Good(stamp, receivedAt));
      return kind.Measured?;
    }

    /** Count a reading in the bucket of its receive time. */
    method Record(kind: Kind, receivedAt: int, ghost good: bool)
      requires Valid() && (kind.Measured? && good ==> kind.skew <= offset)
      modifies this`buckets, this`bad, this`exact, this`made, this`steady, this`latest
      ensures Valid()
      ensures bad == if good then old(bad) else old(bad) + {KeyOf(receivedAt, bucket)}
      ensures kind == Measured(offset) ==> KeyOf(receivedAt, bucket) in exact
      ensures CountedIn(old(buckets), buckets, KeyOf(receivedAt, bucket), kind)
      ensures steady == (old(steady) && (old(latest).None? || receivedAt >= old(latest).value))
      ensures latest == Some(receivedAt)
    {
      var i := BucketAt(receivedAt);
      if !good { NoteBad(KeyOf(receivedAt, bucket)); }
      Count(i, kind, old(buckets));
      if kind == Measured(offset) { NoteExact(i); }
    }

    /** What a reading is counted as. */
    function KindOf(topic: string, stamp: Stamp, receivedAt: int): Kind
      reads this`lastStamp
    {
      if stamp.Absent? then Unstamped
      else if stamp.NotFinite? || stamp.ts < earliest then Invalid
      else if stamp.ts - receivedAt > plausible then Invalid
      else if topic !in lastStamp || stamp.ts == lastStamp[topic] then NotNew
      else if stamp.ts - receivedAt < -plausible then Invalid
      else if !live then NotNew
      else Measured(stamp.ts - receivedAt)
    }

    /** Count a reading in the bucket of its minute. */
    method Count(i: nat, kind: Kind, ghost was: seq<Bucket>)
      requires Valid() && i < |buckets| && (kind.Measured? && buckets[i].key !in bad ==> kind.skew <= offset)
      requires buckets[i] in was || (buckets[i] == Empty(buckets[i].key) && NoneAt(was, buckets[i].key))
      requires forall b :: b in buckets && b.key != buckets[i].key ==> b in was
      modifies this`buckets
      ensures Valid() && buckets == old(buckets)[i := Counted(old(buckets)[i], kind)]
      ensures CountedIn(was, buckets, old(buckets)[i].key, kind)
    {
      var b := buckets[i];
      Put(i, Counted(b, kind));
      assert buckets[i] == Counted(b, kind);
    }

    ghost method NoteBad(key: int)
      requires Valid()
      modifies this`bad
      ensures Valid() && bad == old(bad) + {key}
    {
      bad := bad + {key};
    }

    ghost method NoteExact(i: nat)
      requires Valid() && i < |buckets| && buckets[i].maxSkew.Some? && buckets[i].maxSkew.value >= offset
      modifies this`exact
      ensures Valid() && exact == old(exact) + {buckets[i].key}
    {
      exact := exact + {buckets[i].key};
    }

    /** Drop the last timestamp of every topic that is not kept. */
    method Forget(keep: set<string>)
      requires Valid()
      modifies this`lastStamp
      ensures Valid() && lastStamp == map t | t in old(lastStamp) && t in keep :: old(lastStamp)[t]
    {
      lastStamp := map t | t in lastStamp && t in keep :: lastStamp[t];
    }

    /** At most one minute of the window holds bad readings. */
    ghost predicate OneBadMinute()
      reads this
    {
      exists k :: GoodBut(k)
    }

    ghost predicate GoodBut(k: int)
      reads this
    {
      forall i :: 0 <= i < |buckets| && i != k ==> buckets[i].key !in bad
    }

    /** Two minutes of the window measured a reading that had no delay. */
    ghost predicate TwoExactMinutes()
      reads this
    {
      exists i, j :: 0 <= i < j < |buckets| && ExactAt(i) && ExactAt(j)
    }

    ghost predicate ExactAt(i: nat)
      reads this
    {
      i < |buckets| && buckets[i].key in exact
    }

    /** The clock over the window: with no more than one bad minute the skew is
        never more than the offset, and with two exact ones never less. */
    method StatusAt(now: int) returns (status: Status)
      requires Valid()
      modifies this`buckets
      ensures Valid() && buckets == Unexpired(old(buckets), KeyOf(now - window, bucket))
      ensures status.minutes == |Estimates(buckets)|
      ensures status.skew.Some? <==> status.minutes >= minMinutes
      ensures status.jitter.Some? <==> status.skew.Some?
      ensures status.skew.Some? ==> status.jitter.value >= 0 && forall x ::
        status.skew.value - status.jitter.value > x <==> |Estimates(buckets)| - Above(Estimates(buckets), x) <= 1
      ensures status.skew.Some? && OneBadMinute() ==> status.skew.value <= offset
      ensures status.skew.Some? && TwoExactMinutes() ==> status.skew.value >= offset
    {
      Expire(now);
      SkewBounds();
      status := Estimated(Estimates(buckets));
      assert status.skew.Some? ==> (status.skew.value <= offset - 1 <==> Above(Estimates(buckets), offset - 1) <= 1);
    }

    /** One minute is discarded at each end. */
    method Estimated(estimates: seq<int>) returns (status: Status)
      requires minMinutes >= 3
      ensures status.minutes == |estimates|
      ensures (status.skew.Some? <==> |estimates| >= minMinutes) && (status.jitter.Some? <==> status.skew.Some?)
      ensures status.skew.Some? ==> forall x :: status.skew.value <= x <==> Above(estimates, x) <= 1
      ensures status.skew.Some? ==> status.jitter.value >= 0 && forall x ::
        status.skew.value - status.jitter.value > x <==> |estimates| - Above(estimates, x) <= 1
    {
      var sorted := Sort(estimates);
      var n := |sorted|;
      if n < minMinutes { return Status(None, None, n); }
      BothSeconds(estimates);
      var kept := sorted[1..n - 1];
      assert kept[|kept| - 1] == sorted[n - 2];
      return Status(Some(kept[|kept| - 1]), Some(kept[|kept| - 1] - kept[0]), n);
    }

    /** Estimates of all minutes but one are no more than the offset. */
    lemma NeverMore(k: int)
      requires Valid() && GoodBut(k)
      ensures Above(Estimates(buckets), offset) <= 1
    {
      forall i | 0 <= i < |buckets| && i != k ensures buckets[i].maxSkew.GetOr(offset) <= offset {
        assert Sound(buckets[i]);
      }
      AboveOne(buckets, offset, k);
    }

    lemma NeverLess(i: nat, j: nat)
      requires Valid() && i < j && ExactAt(i) && ExactAt(j)
      ensures Above(Estimates(buckets), offset - 1) >= 2
    {
      assert Sound(buckets[i]) && Sound(buckets[j]);
      AboveTwo(buckets, offset - 1, i, j);
    }

    /** How many minutes have estimates above the offset, and at it or above. */
    lemma SkewBounds()
      requires Valid()
      ensures OneBadMinute() ==> Above(Estimates(buckets), offset) <= 1
      ensures TwoExactMinutes() ==> Above(Estimates(buckets), offset - 1) >= 2
    {
      if k :| GoodBut(k) { NeverMore(k); }
      if i, j :| 0 <= i < j < |buckets| && ExactAt(i) && ExactAt(j) { NeverLess(i, j); }
    }
  }

  /** A clock, or none for a window, a bucket or a minimum that is refused. */
  method Make(live: bool, window: int, bucket: int, minMinutes: int, plausible: int, earliest: int, ghost offset: int)
    returns (clock: Option<Clock>)
    ensures clock.None? <==> window <= 0 || bucket <= 0 || window < bucket || minMinutes < 3
    ensures clock.Some? ==>
      fresh(clock.value) && clock.value.Valid() && clock.value.steady && clock.value.offset == offset
  {
    if window <= 0 || bucket <= 0 || window < bucket || minMinutes < 3 { return None; }
    var c := new Clock(live, window, bucket, minMinutes, plausible, earliest, offset);
    return Some(c);
  }
}
