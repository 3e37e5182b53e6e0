/** A connector's durable journal of samples: what leaves it was admitted by the
    node, or was refused for good and set aside in a recorded spell. */
module Journal {
  import opened Options

  /** One reading, told apart from every other by its number. */
  datatype Sample<V> = Sample(number: nat, topic: string, signal: string, value: V) {
    /** What a spell of refusals is counted under. */
    function Key(): string { if signal != "" then signal else topic }
  }

  datatype Row<V> = Row(id: nat, sample: Sample<V>)

  type Rows<V> = seq<Row<V>>

  /** The node's answer for one record: an error if it names one, whether it
      carries an offset and which (it may carry a null), and a reason. */
  datatype Result = Result(error: string, hasOffset: bool, offset: Option<int>, reason: string) {

    /** What retires a row as admitted. */
    predicate Accepted() { error == "" && hasOffset }

    /** What it should be: admitted at a durable offset. */
    predicate Durable() { error == "" && hasOffset && offset.Some? }

    /** `refusal_is_final`. */
    predicate Final(batchAdmitted: bool) {
      if (hasOffset && offset.Some?) || error == "" then false
      else if reason != "" then reason in FINAL_REFUSAL_REASONS
      else batchAdmitted
    }

    function Reason(): string { if reason != "" then reason else "refused" }
  }

  const FINAL_REFUSAL_REASONS: set<string> := {
    "validation", "grammar", "node_id", "identity", "write_denied", "cmd_denied",
    "registry_contract", "human_write", "time_sync", "not_producer", "too_large"
  }

  const PAGE := 1000

  // ------------------------------------------------------------------ rows

  /** Ids increase: the journal is a queue. */
  ghost predicate Queue<V>(rows: Rows<V>) {
    forall i, j :: 0 <= i < j < |rows| ==> rows[i].id < rows[j].id
  }

  ghost predicate InRows<V>(rows: Rows<V>, s: Sample<V>) {
    exists i :: 0 <= i < |rows| && rows[i].sample == s
  }

  /** What deleting some ids leaves, in order. */
  function Without<V>(rows: Rows<V>, ids: set<nat>): Rows<V> {
    if rows == [] then []
    else
      var last := rows[|rows| - 1];
      Without(rows[..|rows| - 1], ids) + (if last.id in ids then [] else [last])
  }

  /** What is left is exactly what was not deleted. */
  lemma {:induction false} LeftExactly<V>(rows: Rows<V>, ids: set<nat>, r: Row<V>)
    ensures r in Without(rows, ids) <==> r in rows && r.id !in ids
  {
    if rows != [] {
      var front, last := rows[..|rows| - 1], rows[|rows| - 1];
      LeftExactly(front, ids, r);
      assert rows == front + [last];
    }
  }

  /** What is left is in order. */
  lemma {:induction false} LeftInOrder<V>(rows: Rows<V>, ids: set<nat>)
    requires Queue(rows)
    ensures Queue(Without(rows, ids)) && |Without(rows, ids)| <= |rows|
  {
    if rows != [] {
      var front, last := rows[..|rows| - 1], rows[|rows| - 1];
      LeftInOrder(front, ids);
      var kept := Without(front, ids);
      forall i | 0 <= i < |kept| ensures kept[i].id < last.id {
        LeftExactly(front, ids, kept[i]);
        var j :| 0 <= j < |front| && front[j] == kept[i];
        assert rows[j] == front[j];
      }
    }
  }

  /** Deleting in two goes is deleting at once. */
  lemma {:induction false} WithoutTwice<V>(rows: Rows<V>, a: set<nat>, b: set<nat>)
    ensures Without(Without(rows, a), b) == Without(rows, a + b)
  {
    if rows != [] {
      var front, last := rows[..|rows| - 1], rows[|rows| - 1];
      WithoutTwice(front, a, b);
      var kept := Without(front, a);
      assert (kept + [last])[..|kept|] == kept;
      assert kept + [] == kept;
    }
  }

  lemma {:induction false} WithoutJoins<V>(a: Rows<V>, b: Rows<V>, ids: set<nat>)
    ensures Without(a + b, ids) == Without(a, ids) + Without(b, ids)
  {
    if b == [] {
      assert a + b == a;
    } else {
      assert (a + b)[..|a + b| - 1] == a + b[..|b| - 1];
      WithoutJoins(a, b[..|b| - 1], ids);
    }
  }

  lemma {:induction false} WithoutAll<V>(rows: Rows<V>, ids: set<nat>)
    requires forall i :: 0 <= i < |rows| ==> rows[i].id in ids
    ensures Without(rows, ids) == []
  {
    if rows != [] { WithoutAll(rows[..|rows| - 1], ids); }
  }

  lemma {:induction false} WithoutNone<V>(rows: Rows<V>, ids: set<nat>)
    requires forall i :: 0 <= i < |rows| ==> rows[i].id !in ids
    ensures Without(rows, ids) == rows
  {
    if rows != [] {
      WithoutNone(rows[..|rows| - 1], ids);
      assert rows == rows[..|rows| - 1] + [rows[|rows| - 1]];
    }
  }

  // ----------------------------------------------------- where samples are

  /** How a sample left the journal: admitted, retired on an answer without an
      offset, or set aside for a reason. */
  datatype Fate = Admitted | Blind | Aside(reason: string)

  /** How an answer that decides its row has it leave. */
  function FateOf(result: Result): Fate {
    if result.Durable() then Admitted else if result.Accepted() then Blind else Aside(result.Reason())
  }

  ghost predicate Differ<V>(a: Row<V>, b: Row<V>) { a.sample != b.sample }

  /** Every sample that was taken is in one row of the journal, or left it one
      way. */
  ghost predicate Accounted<V>(rows: Rows<V>, taken: set<Sample<V>>, fate: map<Sample<V>, Fate>) {
    && (forall i, j {:trigger Differ(rows[i], rows[j])} :: 0 <= i < j < |rows| ==> Differ(rows[i], rows[j]))
    && (forall r :: r in rows ==> r.sample in taken && r.sample !in fate)
    && (forall s :: s in taken ==> InRows(rows, s) || s in fate)
    && fate.Keys <= taken
  }

  lemma OneRow<V>(rows: Rows<V>, taken: set<Sample<V>>, fate: map<Sample<V>, Fate>, r: Row<V>, r': Row<V>)
    requires Accounted(rows, taken, fate) && r in rows && r' in rows && r.sample == r'.sample
    ensures r == r'
  {
    var i :| 0 <= i < |rows| && rows[i] == r;
    var j :| 0 <= j < |rows| && rows[j] == r';
    if i != j { Apart(rows, taken, fate, Min(i, j), Max(i, j)); }
  }

  lemma Apart<V>(rows: Rows<V>, taken: set<Sample<V>>, fate: map<Sample<V>, Fate>, i: nat, j: nat)
    requires Accounted(rows, taken, fate) && i < j < |rows|
    ensures rows[i].sample != rows[j].sample
  {
    assert Differ(rows[i], rows[j]);
  }

  lemma LastInQueue<V>(rows: Rows<V>, row: Row<V>)
    requires Queue(rows) && (rows != [] ==> rows[|rows| - 1].id < row.id)
    ensures Queue(rows + [row]) && rows <= rows + [row]
  {
    if |rows| > 1 { assert forall i :: 0 <= i < |rows| - 1 ==> rows[i].id < rows[|rows| - 1].id; }
  }

  /** A new sample in a new row. */
  lemma Enters<V>(rows: Rows<V>, taken: set<Sample<V>>, fate: map<Sample<V>, Fate>, row: Row<V>)
    requires Accounted(rows, taken, fate) && row.sample !in taken
    ensures Accounted(rows + [row], taken + {row.sample}, fate)
  {
    var more := rows + [row];
    assert more[|rows|] == row;
    forall t | t in taken + {row.sample} ensures InRows(more, t) || t in fate {
      if t in taken && t !in fate {
        var i :| 0 <= i < |rows| && rows[i].sample == t;
        assert more[i].sample == t;
      }
    }
    forall i, j | 0 <= i < j < |more| ensures Differ(more[i], more[j]) {
      if j < |rows| { assert Differ(rows[i], rows[j]); } else { assert rows[i] in rows; }
    }
  }

  /** The samples of some rows. */
  function Of<V(==)>(rows: Rows<V>, ids: set<nat>): set<Sample<V>> {
    set r | r in rows && r.id in ids :: r.sample
  }

  /** Rows that are deleted leave the journal the ways that are noted. */
  lemma Leaves<V>(rows: Rows<V>, taken: set<Sample<V>>, fate: map<Sample<V>, Fate>, ids: set<nat>,
                  more: map<Sample<V>, Fate>)
    requires Queue(rows) && Accounted(rows, taken, fate) && more.Keys == Of(rows, ids)
    ensures Accounted(Without(rows, ids), taken, fate + more)
  {
    var left := Without(rows, ids);
    LeftInOrder(rows, ids);
    forall r | r in left ensures r.sample in taken && r.sample !in fate + more {
      LeftExactly(rows, ids, r);
      if r.sample in more {
        var r' :| r' in rows && r'.id in ids && r'.sample == r.sample;
        OneRow(rows, taken, fate, r, r');
      }
    }
    forall i, j | 0 <= i < j < |left| ensures Differ(left[i], left[j]) { Distinct(rows, taken, fate, ids, i, j); }
    forall s | s in taken ensures InRows(left, s) || s in fate + more {
      if s !in fate + more {
        var i :| 0 <= i < |rows| && rows[i].sample == s;
        LeftExactly(rows, ids, rows[i]);
        assert rows[i] in rows;
        var j :| 0 <= j < |left| && left[j] == rows[i];
      }
    }
  }

  lemma Distinct<V>(rows: Rows<V>, taken: set<Sample<V>>, fate: map<Sample<V>, Fate>, ids: set<nat>, i: nat, j: nat)
    requires Queue(rows) && Accounted(rows, taken, fate) && i < j < |Without(rows, ids)|
    ensures Differ(Without(rows, ids)[i], Without(rows, ids)[j])
  {
    var left := Without(rows, ids);
    LeftInOrder(rows, ids);
    LeftExactly(rows, ids, left[i]);
    LeftExactly(rows, ids, left[j]);
    if left[i].sample == left[j].sample { OneRow(rows, taken, fate, left[i], left[j]); }
  }

  // --------------------------------------------------------------- the page

  /** What one attempt brings: the node's answers (none when the request or its
      reply is lost) and which records it stored in truth; whether recording a
      refusal works, by row. */
  datatype Weather = Weather(reply: Option<seq<Result>>, stored: nat -> bool, records: nat -> bool)

  datatype Outcome = Published | Undecided | Lost | BadReceipt | NotRecorded | Died

  datatype Spell = Spell(refused: nat, reason: string)

  // Of a page of rows and the answers to them.

  predicate AnyAccepted(results: seq<Result>) {
    exists i :: 0 <= i < |results| && results[i].Accepted()
  }

  /** Whether an answer decides its row. */
  predicate Decides(result: Result, batchAdmitted: bool) { result.Accepted() || result.Final(batchAdmitted) }

  ghost predicate AllDecided(results: seq<Result>, batchAdmitted: bool, from: nat, to: nat)
    requires from <= to <= |results|
  {
    forall i :: from <= i < to ==> Decides(results[i], batchAdmitted)
  }

  ghost predicate AllRecorded(w: Weather, n: nat) {
    forall i :: 0 <= i < n ==> w.records(i)
  }

  /** A row is done with: it is admitted, or its refusal names a final reason,
      or it names none and another row of the page is admitted. */
  predicate DoneWith(result: Result, results: seq<Result>) {
    || (result.error == "" && result.hasOffset)
    || (result.error != "" && !(result.hasOffset && result.offset.Some?)
        && (result.reason in FINAL_REFUSAL_REASONS || (result.reason == "" && OneAdmitted(results))))
  }

  predicate OneAdmitted(results: seq<Result>) {
    exists k :: 0 <= k < |results| && results[k].error == "" && results[k].hasOffset
  }

  /** What the answers to a page's rows leave of the journal is what is behind
      the page exactly when every row of it is done with. */
  lemma RetiresWholeExactly<V>(rows: Rows<V>, results: seq<Result>)
    requires Queue(rows) && |results| <= |rows|
    ensures Without(rows, DecidedIds(rows, results, |results|, AnyAccepted(results))) == rows[|results|..]
      <==> forall i :: 0 <= i < |results| ==> DoneWith(results[i], results)
  {
    DecidesIsDone(results);
    if i :| 0 <= i < |results| && !DoneWith(results[i], results) {
      StaysFirst(rows, results, AnyAccepted(results), i);
    } else {
      PageGone(rows, rows[..|results|], results, AnyAccepted(results));
    }
  }

  lemma DecidesIsDone(results: seq<Result>)
    ensures forall i :: 0 <= i < |results| ==>
      (Decides(results[i], AnyAccepted(results)) <==> DoneWith(results[i], results))
  {
    assert "" !in FINAL_REFUSAL_REASONS;
  }

  /** A row that is not decided is left in front of what is behind the page. */
  lemma StaysFirst<V>(rows: Rows<V>, results: seq<Result>, admitted: bool, i: nat)
    requires Queue(rows) && i < |results| <= |rows| && !Decides(results[i], admitted)
    ensures Without(rows, DecidedIds(rows, results, |results|, admitted)) != rows[|results|..]
  {
    var ids := DecidedIds(rows, results, |results|, admitted);
    assert rows[i].id !in ids;
    LeftExactly(rows, ids, rows[i]);
    NotBehind(rows, |results|, i);
  }

  lemma NotBehind<V>(rows: Rows<V>, n: nat, i: nat)
    requires Queue(rows) && i < n <= |rows|
    ensures rows[i] !in rows[n..] && rows[i] in rows
  {
    forall j | n <= j < |rows| ensures rows[j] != rows[i] { assert rows[i].id < rows[j].id; }
  }

  lemma OneNotRecorded(w: Weather, n: nat, i: nat)
    requires i < n && !w.records(i)
    ensures !AllRecorded(w, n)
  {
  }

  lemma DecidedMore(results: seq<Result>, admitted: bool, i: nat)
    requires i < |results|
    ensures AllDecided(results, admitted, 0, i + 1)
      <==> AllDecided(results, admitted, 0, i) && Decides(results[i], admitted)
  {
  }

  /** One more id, one more sample. */
  lemma OfMore<V>(rows: Rows<V>, ids: set<nat>, i: nat)
    requires Queue(rows) && i < |rows|
    ensures Of(rows, ids + {rows[i].id}) == Of(rows, ids) + {rows[i].sample}
  {
    assert rows[i] in rows;
    forall r | r in rows && r.id == rows[i].id ensures r == rows[i] {
      var j :| 0 <= j < |rows| && rows[j] == r;
    }
  }

  lemma LeavesAside<V>(rows: Rows<V>, taken: set<Sample<V>>, fate: map<Sample<V>, Fate>, row: Row<V>, reason: string)
    requires Queue(rows) && Accounted(rows, taken, fate) && row in rows
    ensures Accounted(Without(rows, {row.id}), taken, fate[row.sample := Aside(reason)])
    ensures Queue(Without(rows, {row.id})) && |Without(rows, {row.id})| <= |rows|
  {
    var i :| 0 <= i < |rows| && rows[i] == row;
    OfMore(rows, {}, i);
    assert {} + {row.id} == {row.id};
    assert Of(rows, {row.id}) == {row.sample};
    Leaves(rows, taken, fate, {row.id}, map[row.sample := Aside(reason)]);
    LeftInOrder(rows, {row.id});
    assert fate + map[row.sample := Aside(reason)] == fate[row.sample := Aside(reason)];
  }

  /** The ids of the first so many rows whose answers accept them; or decide them. */
  function AcceptedIds<V>(rows: Rows<V>, results: seq<Result>): (ids: set<nat>)
    requires |results| <= |rows|
  {
    set i | 0 <= i < |results| && results[i].Accepted() :: rows[i].id
  }

  function DecidedIds<V>(rows: Rows<V>, results: seq<Result>, n: nat, batchAdmitted: bool): (ids: set<nat>)
    requires n <= |results| <= |rows|
  {
    set i | 0 <= i < n && Decides(results[i], batchAdmitted) :: rows[i].id
  }

  /** Whether a sample was retired on an answer without an offset. */
  ghost predicate RetiredBlind<V>(rows: Rows<V>, results: seq<Result>, s: Sample<V>)
    requires |results| <= |rows|
  {
    exists i :: 0 <= i < |results| && rows[i].sample == s && results[i].Accepted() && !results[i].Durable()
  }

  /** How the accepted rows leave the journal. */
  ghost function AcceptedFates<V>(rows: Rows<V>, results: seq<Result>): map<Sample<V>, Fate>
    requires |results| <= |rows|
  {
    map s | s in Of(rows, AcceptedIds(rows, results)) :: if RetiredBlind(rows, results, s) then Blind else Admitted
  }

  /** A page retires a row without a durable offset exactly when it is answered
      without an error and with a null offset. */
  lemma BlindExactly<V>(rows: Rows<V>, taken: set<Sample<V>>, fate: map<Sample<V>, Fate>, results: seq<Result>)
    requires Queue(rows) && Accounted(rows, taken, fate) && |results| <= |rows|
    ensures (exists s :: s in AcceptedFates(rows, results) && AcceptedFates(rows, results)[s].Blind?)
      <==> exists i :: 0 <= i < |results| && results[i].error == "" && results[i].hasOffset && results[i].offset.None?
  {
    if i :| 0 <= i < |results| && results[i].error == "" && results[i].hasOffset && results[i].offset.None? {
      assert results[i].Accepted() && !results[i].Durable();
      assert rows[i].id in AcceptedIds(rows, results) && rows[i] in rows;
      assert rows[i].sample in AcceptedFates(rows, results);
      assert RetiredBlind(rows, results, rows[i].sample);
    }
  }

  /** What left the journal on a page's answers left as they say. */
  ghost predicate LeftAs<V>(rows: Rows<V>, results: seq<Result>, was: map<Sample<V>, Fate>, fate: map<Sample<V>, Fate>)
    requires |results| <= |rows|
  {
    && (forall s :: s in was ==> s in fate && fate[s] == was[s])
    && (forall s :: s in fate && s !in was ==> AnsweredSo(rows, results, s, fate[s]))
  }

  ghost predicate AnsweredSo<V>(rows: Rows<V>, results: seq<Result>, s: Sample<V>, f: Fate)
    requires |results| <= |rows|
  {
    exists i :: 0 <= i < |results| && rows[i].sample == s && f == FateOf(results[i])
  }

  /** The accepted rows, and of the first so many those that are refused for
      good, left as their answers say. */
  ghost predicate AllLeftAs<V>(rows: Rows<V>, results: seq<Result>, n: nat, admitted: bool, fate: map<Sample<V>, Fate>)
    requires n <= |results| <= |rows|
  {
    forall i :: 0 <= i < |results| && (results[i].Accepted() || (i < n && results[i].Final(admitted))) ==>
      rows[i].sample in fate && fate[rows[i].sample] == FateOf(results[i])
  }

  lemma AcceptedLeave<V>(rows: Rows<V>, taken: set<Sample<V>>, was: map<Sample<V>, Fate>, results: seq<Result>,
                         admitted: bool)
    requires Queue(rows) && Accounted(rows, taken, was) && |results| <= |rows|
    ensures LeftAs(rows, results, was, was + AcceptedFates(rows, results))
    ensures AllLeftAs(rows, results, 0, admitted, was + AcceptedFates(rows, results))
  {
    forall i | 0 <= i < |results| && results[i].Accepted()
      ensures rows[i].sample in AcceptedFates(rows, results)
      ensures AcceptedFates(rows, results)[rows[i].sample] == FateOf(results[i])
    {
      AcceptedFate(rows, taken, was, results, i);
    }
    AcceptedSo(rows, taken, was, results);
  }

  lemma AcceptedSo<V>(rows: Rows<V>, taken: set<Sample<V>>, was: map<Sample<V>, Fate>, results: seq<Result>)
    requires Queue(rows) && Accounted(rows, taken, was) && |results| <= |rows|
    ensures LeftAs(rows, results, was, was + AcceptedFates(rows, results))
  {
    var more := AcceptedFates(rows, results);
    forall s | s in more ensures AnsweredSo(rows, results, s, more[s]) && s !in was {
      var r :| r in rows && r.id in AcceptedIds(rows, results) && r.sample == s;
      var i :| 0 <= i < |results| && results[i].Accepted() && rows[i].id == r.id;
      SameId(rows, rows[i], r);
      AcceptedFate(rows, taken, was, results, i);
    }
  }

  lemma SameId<V>(rows: Rows<V>, a: Row<V>, b: Row<V>)
    requires Queue(rows) && a in rows && b in rows && a.id == b.id
    ensures a == b
  {
    var i :| 0 <= i < |rows| && rows[i] == a;
    var j :| 0 <= j < |rows| && rows[j] == b;
    assert i == j;
  }

  lemma AcceptedFate<V>(rows: Rows<V>, taken: set<Sample<V>>, was: map<Sample<V>, Fate>, results: seq<Result>, i: nat)
    requires Queue(rows) && Accounted(rows, taken, was) && i < |results| <= |rows| && results[i].Accepted()
    ensures rows[i].sample in AcceptedFates(rows, results)
    ensures AcceptedFates(rows, results)[rows[i].sample] == FateOf(results[i])
  {
    assert rows[i] in rows && rows[i].id in AcceptedIds(rows, results);
    if j :| 0 <= j < |results| && rows[j].sample == rows[i].sample && results[j].Accepted() && !results[j].Durable() {
      OneRow(rows, taken, was, rows[i], rows[j]);
    }
  }

  /** What counts as admitted was answered with an offset. */
  lemma AdmittedDurable<V>(rows: Rows<V>, results: seq<Result>, s: Sample<V>) returns (i: nat)
    requires Queue(rows) && |results| <= |rows| && s in AcceptedFates(rows, results)
    requires AcceptedFates(rows, results)[s].Admitted?
    ensures i < |results| && rows[i].sample == s && results[i].Durable()
  {
    var r :| r in rows && r.id in AcceptedIds(rows, results) && r.sample == s;
    i :| 0 <= i < |results| && results[i].Accepted() && rows[i].id == r.id;
    var j :| 0 <= j < |rows| && rows[j] == r;
    assert i == j;
  }

  lemma FatesStored<V>(rows: Rows<V>, results: seq<Result>, node: set<Sample<V>>)
    requires Queue(rows) && |results| <= |rows|
    requires forall i :: 0 <= i < |results| && results[i].Durable() ==> rows[i].sample in node
    ensures forall s :: s in AcceptedFates(rows, results) ==> FateHolds(AcceptedFates(rows, results)[s], s, node, {})
  {
    var more := AcceptedFates(rows, results);
    forall s | s in more && more[s].Admitted? ensures s in node {
      var i := AdmittedDurable(rows, results, s);
    }
  }

  /** What a way out of the journal promises. */
  ghost predicate FateHolds<V>(f: Fate, s: Sample<V>, node: set<Sample<V>>, recorded: set<(string, string)>) {
    && (f.Admitted? ==> s in node)
    && (f.Aside? ==> (s.Key(), f.reason) in recorded)
  }

  lemma FatesKept<V>(fate: map<Sample<V>, Fate>, more: map<Sample<V>, Fate>, node: set<Sample<V>>,
                     recorded: set<(string, string)>)
    requires forall s :: s in fate ==> FateHolds(fate[s], s, node, recorded)
    requires forall s :: s in more ==> FateHolds(more[s], s, node, {})
    ensures forall s :: s in fate + more ==> FateHolds((fate + more)[s], s, node, recorded)
  {
  }

  class Connector<V(==)> {
    const maxPending: nat

    // Durable.
    var rows: Rows<V>
    // In memory; `fuel` is how many durable steps are taken before the next crash.
    var spells: map<string, Spell>
    var fuel: nat

    /** Every sample that was accepted into the journal, how those that left it
        did, what the node stored, and the refusals that were recorded. */
    ghost var taken: set<Sample<V>>
    ghost var fate: map<Sample<V>, Fate>
    ghost var node: set<Sample<V>>
    ghost var recorded: set<(string, string)>

    constructor (maxPending: nat, fuel: nat)
      requires maxPending > 0
      ensures Valid() && rows == [] && this.maxPending == maxPending && this.fuel == fuel
      ensures taken == {} && fate == map[] && node == {} && recorded == {}
    {
      this.maxPending, this.fuel := maxPending, fuel;
      rows, spells := [], map[];
      taken, fate, node, recorded := {}, map[], {}, {};
    }

    /** Nothing is lost: each sample that was taken is in the journal, or was
        admitted and is stored by the node, or was set aside under a recorded
        refusal, or was retired on an answer without an offset. */
    ghost predicate Valid()
      reads this
    {
      && Queue(rows) && |rows| <= maxPending && maxPending > 0
      && Accounted(rows, taken, fate)
      && (forall s :: s in fate ==> FateHolds(fate[s], s, node, recorded))
      && (forall k :: k in spells ==> (k, spells[k].reason) in recorded)
    }

    /** One more row, under the id behind the last. */
    method Insert(s: Sample<V>)
      requires Valid() && |rows| < maxPending && s !in taken
      modifies this`rows, this`taken
      ensures Valid() && taken == old(taken) + {s}
      ensures |rows| == |old(rows)| + 1 && old(rows) <= rows && rows[|rows| - 1].sample == s
    {
      var row := Row(if rows == [] then 1 else rows[|rows| - 1].id + 1, s);
      Enters(rows, taken, fate, row);
      LastInQueue(rows, row);
      rows, taken := rows + [row], taken + {s};
    }

    /** A whole acquisition cycle is accepted, or none of it; nothing is evicted. */
    method AppendBatch(batch: seq<Sample<V>>) returns (ok: bool)
      requires Valid()
      requires NewBatch(batch, taken)
      modifies this`rows, this`taken
      ensures Valid()
      ensures ok <==> |old(rows)| + |batch| <= maxPending
      ensures taken == if ok then old(taken) + (set s | s in batch) else old(taken)
      ensures old(rows) <= rows && |rows| == if ok then |old(rows)| + |batch| else |old(rows)|
      ensures ok ==> forall i :: 0 <= i < |batch| ==> rows[|old(rows)| + i].sample == batch[i]
    {
      if |rows| + |batch| > maxPending { return false; }
      for k := 0 to |batch|
        invariant Valid() && |rows| == |old(rows)| + k && old(rows) <= rows
        invariant forall i :: 0 <= i < k ==> rows[|old(rows)| + i].sample == batch[i]
        invariant taken == old(taken) + (set s | s in batch[..k])
      {
        assert batch[..k + 1] == batch[..k] + [batch[k]];
        Insert(batch[k]);
      }
      assert batch[..|batch|] == batch;
      return true;
    }

    /** The process dies and starts again: the journal is what it was. */
    method Restart(fuel: nat)
      requires Valid()
      modifies this`spells, this`fuel
      ensures Valid() && spells == map[] && this.fuel == fuel
    {
      spells, this.fuel := map[], fuel;
    }

    /** The node stored every record that it answered with an offset. */
    ghost predicate Honest(w: Weather) {
      w.reply.Some? ==> forall i :: 0 <= i < |w.reply.value| && w.reply.value[i].Durable() ==> w.stored(i)
    }

    ghost function Stored(n: nat, w: Weather): set<Sample<V>>
      requires n <= |rows|
      reads this`rows
    {
      set i | 0 <= i < n && w.stored(i) :: rows[i].sample
    }

    /** The accepted rows leave the journal, in one commit. */
    method AckAccepted(results: seq<Result>)
      requires Valid() && |results| <= |rows|
      requires forall i :: 0 <= i < |results| && results[i].Durable() ==> rows[i].sample in node
      modifies this`rows, this`fate
      ensures Valid() && rows == Without(old(rows), AcceptedIds(old(rows), results))
      ensures fate == old(fate) + AcceptedFates(old(rows), results)
    {
      var ids := AcceptedIds(rows, results);
      ghost var more := AcceptedFates(rows, results);
      Leaves(rows, taken, fate, ids, more);
      LeftInOrder(rows, ids);
      FatesStored(rows, results, node);
      FatesKept(fate, more, node, recorded);
      rows, fate := Without(rows, ids), fate + more;
    }

    /** A refused row leaves the journal once its refusal is recorded: the
        first of a spell, or of another reason, is; `ok` when it could be. */
    method SetAside(s: Sample<V>, result: Result, records: bool) returns (ok: bool)
      requires Valid()
      modifies this`spells, this`recorded
      ensures Valid()
      ensures
        var key := if s.signal == "" then s.topic else s.signal;
        var reason := if result.reason == "" then "refused" else result.reason;
        var goesOn := key in old(spells) && old(spells)[key].reason == reason;
        && (ok <==> records || goesOn)
        && (ok ==> recorded == old(recorded) + {(key, reason)}
                   && spells == old(spells)[key := Spell(if goesOn then old(spells)[key].refused + 1 else 1, reason)])
      ensures ok ==> (s.Key(), result.Reason()) in recorded
      ensures !ok ==> spells == old(spells) && recorded == old(recorded)
    {
      var key, reason := s.Key(), result.Reason();
      var spell := Spell(0, reason);
      if key in spells && spells[key].reason == reason {
        spell := spells[key];
      } else if !records {
        return false;
      } else {
        recorded := recorded + {(key, reason)};
      }
      spells := spells[key := spell.(refused := spell.refused + 1)];
      assert (key, reason) in recorded;
      return true;
    }

    /** A row that was set aside is deleted. */
    method AckAside(row: Row<V>, ghost reason: string)
      requires Valid() && row in rows && (row.sample.Key(), reason) in recorded
      modifies this`rows, this`fate
      ensures Valid() && rows == Without(old(rows), {row.id})
      ensures row.sample !in old(fate) && fate == old(fate)[row.sample := Aside(reason)]
    {
      LeavesAside(rows, taken, fate, row, reason);
      fate := fate[row.sample := Aside(reason)];
      rows := Without(rows, {row.id});
    }

    /** Note who was accepted; what is admitted again ends its spell. */
    method SortReply(page: Rows<V>, results: seq<Result>) returns (accepted: set<nat>)
      requires Valid() && |results| == |page|
      modifies this`spells
      ensures Valid() && accepted == AcceptedIds(page, results)
    {
      accepted := {};
      for k := 0 to |page|
        invariant Valid() && accepted == AcceptedIds(page, results[..k])
      {
        assert results[..k + 1][..k] == results[..k];
        if results[k].Accepted() {
          accepted := accepted + {page[k].id};
          spells := spells - {page[k].sample.Key()};
          assert AcceptedIds(page, results[..k + 1]) == AcceptedIds(page, results[..k]) + {page[k].id};
        } else {
          assert AcceptedIds(page, results[..k + 1]) == AcceptedIds(page, results[..k]);
        }
      }
      assert results[..|page|] == results;
    }

    /** One row that was not accepted: it leaves when it is refused for good,
        and that is recorded. */
    method Decide(row: Row<V>, result: Result, admitted: bool, records: bool) returns (out: Outcome)
      requires Valid() && row in rows && !result.Accepted()
      modifies this`rows, this`fate, this`spells, this`recorded, this`fuel
      ensures Valid()
      ensures out.Published? || out.Undecided? || out.NotRecorded? || out.Died?
      ensures out.Published? ==> Decides(result, admitted) && rows == Without(old(rows), {row.id})
      ensures !out.Published? ==> rows == old(rows) && fate == old(fate)
      ensures out.Published? ==> row.sample !in old(fate) && fate == old(fate)[row.sample := FateOf(result)]
      ensures out.Undecided? <==> !Decides(result, admitted)
      ensures out.NotRecorded? ==> !records
      ensures out.Died? ==> old(fuel) < 2
      ensures fuel <= old(fuel) <= fuel + 2
    {
      if !result.Final(admitted) { return Undecided; }
      if fuel == 0 { return Died; }
      fuel := fuel - 1;
      var ok := SetAside(row.sample, result, records);
      if !ok { return NotRecorded; }
      if fuel == 0 { return Died; }
      fuel := fuel - 1;
      AckAside(row, result.Reason());
      return Published;
    }

    /** The rows are what is left once the accepted ones, and of the first so
        many those that are refused for good, are gone; each as its answer says. */
    ghost predicate LookedAt(before: Rows<V>, was: map<Sample<V>, Fate>, page: Rows<V>, results: seq<Result>,
                             admitted: bool, i: nat)
      requires |results| == |page| && i <= |page|
      reads this`rows, this`fate
    {
      && rows == Without(before, AcceptedIds(page, results) + DecidedIds(page, results, i, admitted))
      && LeftAs(page, results, was, fate) && AllLeftAs(page, results, i, admitted, fate)
    }

    method DecideNext(page: Rows<V>, results: seq<Result>, admitted: bool, i: nat, records: bool, ghost before: Rows<V>,
                      ghost was: map<Sample<V>, Fate>)
      returns (out: Outcome)
      requires Valid() && |results| == |page| && Queue(before) && page <= before && i < |page|
      requires LookedAt(before, was, page, results, admitted, i)
      modifies this`rows, this`fate, this`spells, this`recorded, this`fuel
      ensures Valid() && fuel <= old(fuel) <= fuel + 2 && LeftAs(page, results, was, fate)
      ensures out.Published? || out.Undecided? ==> LookedAt(before, was, page, results, admitted, i + 1)
      ensures out.Published? || out.Undecided? ==> (out.Published? <==> Decides(results[i], admitted))
      ensures out.Published? || out.Undecided? || (out.NotRecorded? && !records) || (out.Died? && old(fuel) < 2)
    {
      MoreDecided(page, results, admitted, i);
      if results[i].Accepted() { return Published; }
      StillThere(before, page, results, admitted, i);
      ghost var gone, mid := AcceptedIds(page, results) + DecidedIds(page, results, i, admitted), fate;
      WithoutTwice(before, gone, {page[i].id});
      out := Decide(page[i], results[i], admitted, records);
      if out.Published? { OneMoreLeft(page, results, admitted, i, was, mid, fate); }
    }

    /** The refused rows of a page, in order. */
    method DecideRefused(page: Rows<V>, results: seq<Result>, w: Weather, ghost before: Rows<V>,
                         ghost was: map<Sample<V>, Fate>)
      returns (out: Outcome)
      requires Valid() && |results| == |page| && Queue(before) && page <= before
      requires LookedAt(before, was, page, results, AnyAccepted(results), 0)
      modifies this`rows, this`fate, this`spells, this`recorded, this`fuel
      ensures Valid() && fuel <= old(fuel) <= fuel + 2 * |page| && LeftAs(page, results, was, fate)
      ensures out.Published? || out.Undecided? ==>
        SoFar(before, was, page, results, AnyAccepted(results), |page|, out)
      ensures out.Published? || out.Undecided? || (out.NotRecorded? && !AllRecorded(w, |page|))
        || (out.Died? && old(fuel) < 2 * |page|)
    {
      var admitted := AnyAccepted(results);
      out := Published;
      for i := 0 to |page|
        invariant Valid() && fuel <= old(fuel) <= fuel + 2 * i
        invariant SoFar(before, was, page, results, admitted, i, out)
      {
        out := DecideOne(page, results, admitted, i, w, before, was, out);
        if out.NotRecorded? || out.Died? { return; }
      }
    }

    /** Of the first so many rows, those that are decided are gone, and whether
        all are is known. */
    ghost predicate SoFar(before: Rows<V>, was: map<Sample<V>, Fate>, page: Rows<V>, results: seq<Result>,
                          admitted: bool, i: nat, out: Outcome)
      requires |results| == |page| && i <= |page|
      reads this`rows, this`fate
    {
      && LookedAt(before, was, page, results, admitted, i)
      && out == if AllDecided(results, admitted, 0, i) then Published else Undecided
    }

    method DecideOne(page: Rows<V>, results: seq<Result>, admitted: bool, i: nat, w: Weather, ghost before: Rows<V>,
                     ghost was: map<Sample<V>, Fate>, out: Outcome)
      returns (next: Outcome)
      requires Valid() && |results| == |page| && Queue(before) && page <= before && i < |page|
      requires SoFar(before, was, page, results, admitted, i, out)
      modifies this`rows, this`fate, this`spells, this`recorded, this`fuel
      ensures Valid() && fuel <= old(fuel) <= fuel + 2 && LeftAs(page, results, was, fate)
      ensures next.Published? || next.Undecided? ==> SoFar(before, was, page, results, admitted, i + 1, next)
      ensures next.Published? || next.Undecided? || (next.NotRecorded? && !AllRecorded(w, |page|))
        || (next.Died? && old(fuel) < 2)
    {
      next := DecideNext(page, results, admitted, i, w.records(i), before, was);
      DecidedMore(results, admitted, i);
      if next.NotRecorded? { OneNotRecorded(w, |page|, i); }
      if next.Published? { next := out; }
    }

    /** How many rows a page takes of so many: as many as it may. */
    function PageSize(n: nat): (m: nat)
      ensures m <= n && m <= maxPending && m <= 1000 && (m == n || m == maxPending || m == 1000)
    {
      Min(n, Min(maxPending, PAGE))
    }

    /** A page is answered in full, every refusal of it can be recorded, and
        the process lives on. */
    ghost predicate Answered(w: Weather, n: nat, fuel: nat) {
      w.reply.Some? && |w.reply.value| == n && (forall i :: 0 <= i < n ==> w.records(i)) && fuel >= 2 + 2 * n
    }

    /** Publish the first page of the journal: what is admitted leaves it, then
        what is refused for good, and the rest stays in order. */
    method PublishPage(w: Weather) returns (out: Outcome)
      requires Valid() && Honest(w) && rows != []
      modifies this
      ensures Valid() && taken == old(taken)
      ensures out.Published? || out.Undecided? ==>
        var n := PageSize(|old(rows)|);
        && w.reply.Some? && |w.reply.value| == n
        && rows == Without(old(rows), DecidedIds(old(rows), w.reply.value, n, AnyAccepted(w.reply.value)))
        && AllLeftAs(old(rows), w.reply.value, n, AnyAccepted(w.reply.value), fate)
      ensures out.Published? ==> rows == old(rows)[PageSize(|old(rows)|)..]
      ensures Answered(w, PageSize(|old(rows)|), old(fuel)) ==>
        (out.Published? <==> forall i :: 0 <= i < |w.reply.value| ==> DoneWith(w.reply.value[i], w.reply.value))
      ensures w.reply.None? || |w.reply.value| != PageSize(|old(rows)|) ==> rows == old(rows) && fate == old(fate)
      ensures w.reply.Some? && |w.reply.value| == PageSize(|old(rows)|) ==>
        LeftAs(old(rows), w.reply.value, old(fate), fate)
      ensures Extends(old(fate), fate) && (NoNull(w) ==> NoNewBlind(old(fate), fate))
      ensures old(node) <= node
      ensures node <= old(node) + set i | 0 <= i < PageSize(|old(rows)|) && w.stored(i) :: old(rows)[i].sample
      ensures fuel <= old(fuel) <= fuel + 2 + 2 * PageSize(|old(rows)|)
    {
      var n := PageSize(|rows|);
      var page := rows[..n];
      if fuel == 0 { return Died; }
      fuel := fuel - 1;
      node := node + Stored(n, w);
      if w.reply.None? { return Lost; }
      var results := w.reply.value;
      if |results| != n { return BadReceipt; }
      ghost var before, was := rows, fate;
      out := Retire(page, results, w);
      SameLeft(before, page, results, AnyAccepted(results), was, fate);
      if NoNull(w) { NoneLeftBlind(page, results, was, fate); }
      DecidesIsDone(results);
    }

    /** The answers of a page: what is admitted leaves, then what is refused. */
    method Retire(page: Rows<V>, results: seq<Result>, w: Weather) returns (out: Outcome)
      requires Valid() && |results| == |page| && page <= rows
      requires forall i :: 0 <= i < |results| && results[i].Durable() ==> rows[i].sample in node
      modifies this`rows, this`fate, this`spells, this`recorded, this`fuel
      ensures Valid() && !out.BadReceipt? && !out.Lost?
      ensures out.Published? || out.Undecided? ==>
        rows == Without(old(rows), DecidedIds(old(rows), results, |page|, AnyAccepted(results)))
      ensures out.Published? || out.Undecided? ==> AllLeftAs(page, results, |page|, AnyAccepted(results), fate)
      ensures out.Published? ==> rows == old(rows)[|page|..]
      ensures (forall i :: 0 <= i < |page| ==> w.records(i)) && old(fuel) >= 1 + 2 * |page| ==>
        (out.Published? <==> forall i :: 0 <= i < |page| ==> Decides(results[i], AnyAccepted(results)))
      ensures LeftAs(page, results, old(fate), fate)
      ensures fuel <= old(fuel) <= fuel + 1 + 2 * |page|
    {
      ghost var before, was := rows, fate;
      SamePage(before, page, results, AnyAccepted(results));
      var accepted := SortReply(page, results);
      if fuel == 0 { return Died; }
      fuel := fuel - 1;
      RetireAccepted(page, results);
      out := DecideRefused(page, results, w, before, was);
    }

    /** What is admitted leaves. */
    method RetireAccepted(page: Rows<V>, results: seq<Result>)
      requires Valid() && |results| == |page| && page <= rows
      requires forall i :: 0 <= i < |results| && results[i].Durable() ==> rows[i].sample in node
      modifies this`rows, this`fate
      ensures Valid() && LookedAt(old(rows), old(fate), page, results, AnyAccepted(results), 0)
    {
      ghost var before, was := rows, fate;
      SamePage(before, page, results, AnyAccepted(results));
      NoneDecided(page, results, AnyAccepted(results));
      AckAccepted(results);
      AcceptedLeave(before, taken, was, results, AnyAccepted(results));
      SameLeft(before, page, results, AnyAccepted(results), was, fate);
    }

    /** How many of so many rows are left after so many pages. */
    function Rest(n: nat, pages: nat): nat {
      if pages == 0 then n else var m := Rest(n, pages - 1); m - PageSize(m)
    }

    /** The node answers every page in full and is done with every row of it,
        and every refusal can be recorded. */
    ghost predicate AllServed(n: nat, pages: nat, weather: nat -> Weather) {
      forall k {:trigger weather(k)} :: 0 <= k < pages && Rest(n, k) > 0 ==> Served(PageSize(Rest(n, k)), weather(k))
    }

    ghost predicate Served(n: nat, w: Weather) {
      && w.reply.Some? && |w.reply.value| == n && (forall i :: 0 <= i < n ==> w.records(i))
      && forall i :: 0 <= i < n ==> DoneWith(w.reply.value[i], w.reply.value)
    }

    /** Journal a batch, then publish at most so many pages; what is reported
        is whether samples are left. A batch that does not fit is refused whole.
        Where the node is done with every row, every page leaves. */
    method PublishPages(batch: seq<Sample<V>>, pages: nat, weather: nat -> Weather)
      returns (out: Option<Outcome>, left: bool)
      requires Valid() && forall k :: Honest(weather(k))
      requires NewBatch(batch, taken)
      modifies this
      ensures Valid()
      ensures out.None? <==> |old(rows)| + |batch| > maxPending
      ensures taken == if out.Some? then old(taken) + (set s | s in batch) else old(taken)
      ensures out.None? ==> rows == old(rows) && fate == old(fate)
      ensures out == Some(Published) ==> (left <==> rows != [])
      ensures Extends(old(fate), fate) && (NeverNull(weather) ==> NoNewBlind(old(fate), fate))
      ensures var n := |old(rows)| + |batch|;
        out.Some? && AllServed(n, pages, weather) && old(fuel) >= 2 * pages + 2 * n ==>
          out == Some(Published) && |rows| == Rest(n, pages)
    {
      var ok := AppendBatch(batch);
      if !ok { return None, false; }
      var done;
      done, left := PublishRows(pages, weather);
      out := Some(done);
    }

    /** Publish at most so many pages of the journal. */
    method PublishRows(pages: nat, weather: nat -> Weather) returns (out: Outcome, left: bool)
      requires Valid() && forall k :: Honest(weather(k))
      modifies this
      ensures Valid() && taken == old(taken)
      ensures out.Published? ==> (left <==> rows != [])
      ensures Extends(old(fate), fate) && (NeverNull(weather) ==> NoNewBlind(old(fate), fate))
      ensures AllServed(|old(rows)|, pages, weather) && old(fuel) >= 2 * pages + 2 * |old(rows)| ==>
        out.Published? && RestIs(|old(rows)|, pages, |rows|)
    {
      ghost var n := |rows|;
      ghost var served := AllServed(n, pages, weather) && fuel >= 2 * pages + 2 * n;
      var k := 0;
      while k < pages && rows != []
        invariant Valid() && k <= pages && taken == old(taken)
        invariant Extends(old(fate), fate) && (NeverNull(weather) ==> NoNewBlind(old(fate), fate))
        invariant served ==> OnCourse(n, k, pages)
      {
        out := PublishAt(n, k, pages, weather, old(fate), served);
        if !out.Published? { return out, true; }
        k := k + 1;
      }
      if served && rows == [] { NothingRests(n, k, pages); }
      return Published, rows != [];
    }

    /** So many pages left, and the process lives on for the rest of them. */
    ghost predicate OnCourse(n: nat, k: nat, pages: nat)
      reads this`rows, this`fuel
    {
      RestIs(n, k, |rows|) && k <= pages && fuel >= 2 * (pages - k) + 2 * |rows|
    }

    method PublishAt(ghost n: nat, k: nat, pages: nat, weather: nat -> Weather, ghost was: map<Sample<V>, Fate>,
                     ghost served: bool)
      returns (out: Outcome)
      requires Valid() && Honest(weather(k)) && rows != [] && k < pages
      requires Extends(was, fate) && (NeverNull(weather) ==> NoNewBlind(was, fate))
      requires served ==> OnCourse(n, k, pages) && AllServed(n, pages, weather)
      modifies this
      ensures Valid() && taken == old(taken)
      ensures Extends(was, fate) && (NeverNull(weather) ==> NoNewBlind(was, fate))
      ensures served ==> out.Published? && OnCourse(n, k + 1, pages)
    {
      ghost var mid, m := fate, |rows|;
      if served { NextServed(n, k, pages, weather, m); }
      out := PublishNext(weather(k));
      LeftSince(was, mid, fate);
    }

    /** So many rows are left after so many pages. */
    ghost predicate RestIs(n: nat, k: nat, m: nat) { m == Rest(n, k) }

    /** The next page is served, and leaves that much less. */
    lemma NextServed(n: nat, k: nat, pages: nat, weather: nat -> Weather, m: nat)
      requires AllServed(n, pages, weather) && k < pages && RestIs(n, k, m) && m > 0
      ensures Served(PageSize(m), weather(k)) && RestIs(n, k + 1, m - PageSize(m))
    {
    }

    /** One page, and what it leaves when the node is done with all of it. */
    method PublishNext(w: Weather) returns (out: Outcome)
      requires Valid() && Honest(w) && rows != []
      modifies this
      ensures Valid() && taken == old(taken)
      ensures Extends(old(fate), fate) && (NoNull(w) ==> NoNewBlind(old(fate), fate))
      ensures Served(PageSize(|old(rows)|), w) && old(fuel) >= 2 + 2 * |old(rows)| ==>
        && out.Published? && |rows| == |old(rows)| - PageSize(|old(rows)|)
        && old(fuel) <= fuel + 2 + 2 * PageSize(|old(rows)|)
    {
      out := PublishPage(w);
    }

    lemma {:induction false} NothingRests(n: nat, k: nat, pages: nat)
      requires k <= pages && RestIs(n, k, 0)
      ensures RestIs(n, pages, 0)
      decreases pages
    {
      if k < pages { NothingRests(n, k, pages - 1); }
    }

    /** Over every run of batches, replies and crashes: each sample that was
        taken, which are those of the batches that were accepted, is in one row
        of the journal, or left it: admitted and stored by the node, set aside
        under its own recorded refusal, or retired on an answer without an
        offset, which needs such an answer. The journal never exceeds its bound. */
    method Run(script: seq<Turn<V>>) returns (accepted: seq<bool>, ghost path: seq<Standing<V>>)
      requires Valid() && FreshScript(script, taken)
      requires forall k :: 0 <= k < |script| && script[k].Publishes? ==> forall i :: Honest(script[k].weather(i))
      modifies this
      ensures Valid() && |accepted| == |script| && |rows| <= maxPending
      ensures taken == old(taken) + AcceptedOf(script, accepted)
      ensures forall s :: s in taken ==> (InRows(rows, s) <==> s !in fate)
      ensures forall s :: s in fate ==> s in taken && match fate[s]
        case Admitted => s in node
        case Aside(reason) => (s.Key(), reason) in recorded
        case Blind => true
      ensures NoNulls(script) ==> NoNewBlind(old(fate), fate)
      ensures IsPath(path, script, accepted, |script|) && path[0] == old(Now()) && path[|script|] == Now()
    {
      accepted, path := [], [Now()];
      ghost var seen := taken;
      for k := 0 to |script|
        invariant Valid() && |accepted| == k && taken <= seen && FreshScript(script[k..], seen)
        invariant taken == old(taken) + AcceptedOf(script[..k], accepted)
        invariant Extends(old(fate), fate) && (NoNulls(script) ==> NoNewBlind(old(fate), fate))
        invariant IsPath(path, script, accepted, k) && path[0] == old(Now()) && path[k] == Now()
      {
        FreshNext(script, k, seen);
        var ok := Take(script[k]);
        AcceptedNext(script, k, accepted, ok);
        PathOn(path, script, accepted, k, ok, Now());
        seen, accepted, path := seen + BatchOf(script[k]), accepted + [ok], path + [Now()];
      }
      assert script[..|script|] == script;
      Somewhere();
    }

    ghost function Now(): Standing<V>
      reads this
    {
      Standing(rows, taken, fuel)
    }

    /** What a turn does: a batch is accepted exactly when it fits, and with the
        node done with every row its pages leave; a restart changes nothing. */
    ghost predicate Did(a: Standing<V>, turn: Turn<V>, ok: bool, b: Standing<V>) {
      match turn
      case Publishes(batch, pages, weather) =>
        var n := |a.rows| + |batch|;
        && (ok <==> n <= maxPending)
        && b.taken == (if ok then a.taken + (set s | s in batch) else a.taken)
        && (!ok ==> b.rows == a.rows)
        && (ok && AllServed(n, pages, weather) && a.fuel >= 2 * pages + 2 * n ==> |b.rows| == Rest(n, pages))
      case Restarts(fuel) => !ok && b == a.(fuel := fuel)
    }

    /** Each of the first so many turns did what it is for. */
    ghost predicate IsPath(path: seq<Standing<V>>, script: seq<Turn<V>>, accepted: seq<bool>, n: nat) {
      && n <= |script| && |accepted| == n && |path| == n + 1
      && forall k :: 0 <= k < n ==> Did(path[k], script[k], accepted[k], path[k + 1])
    }

    lemma PathOn(path: seq<Standing<V>>, script: seq<Turn<V>>, accepted: seq<bool>, n: nat, ok: bool, next: Standing<V>)
      requires n < |script| && IsPath(path, script, accepted, n) && Did(path[n], script[n], ok, next)
      ensures IsPath(path + [next], script, accepted + [ok], n + 1)
    {
    }

    /** One turn of a run: whether its batch was accepted. */
    method Take(turn: Turn<V>) returns (ok: bool)
      requires Valid() && (turn.Publishes? ==> NewBatch(turn.batch, taken) && forall i :: Honest(turn.weather(i)))
      modifies this
      ensures Valid() && taken == old(taken) + (if ok then BatchOf(turn) else {})
      ensures Extends(old(fate), fate)
      ensures (turn.Publishes? ==> NeverNull(turn.weather)) ==> NoNewBlind(old(fate), fate)
      ensures Did(old(Now()), turn, ok, Now())
    {
      match turn
      case Publishes(batch, pages, weather) =>
        var out, left := PublishPages(batch, pages, weather);
        ok := out.Some?;
      case Restarts(fuel) =>
        Restart(fuel);
        ok := false;
    }

    /** A sample that was taken is in the journal or left it, not both. */
    lemma Somewhere()
      requires Valid()
      ensures forall s :: s in taken ==> (InRows(rows, s) <==> s !in fate)
    {
      forall s | s in taken && s in fate ensures !InRows(rows, s) {
        forall i | 0 <= i < |rows| ensures rows[i].sample != s { assert rows[i] in rows; }
      }
    }
  }

  lemma FreshNext<V>(script: seq<Turn<V>>, k: nat, seen: set<Sample<V>>)
    requires k < |script| && FreshScript(script[k..], seen)
    ensures script[k].Publishes? ==> NewBatch(script[k].batch, seen)
    ensures FreshScript(script[k + 1..], seen + BatchOf(script[k]))
  {
    assert script[k..][0] == script[k] && script[k..][1..] == script[k + 1..];
  }

  lemma AcceptedNext<V>(script: seq<Turn<V>>, k: nat, accepted: seq<bool>, ok: bool)
    requires k < |script| && |accepted| == k
    ensures AcceptedOf(script[..k + 1], accepted + [ok])
      == AcceptedOf(script[..k], accepted) + (if ok then BatchOf(script[k]) else {})
  {
    assert script[..k + 1][..k] == script[..k] && (accepted + [ok])[..k] == accepted;
  }

  /** The journal, every sample of an accepted batch, and the steps left. */
  datatype Standing<V(==)> = Standing(rows: seq<Row<V>>, taken: set<Sample<V>>, fuel: nat)

  /** One turn of a connector's life: a batch is journaled and pages are
      published, or the process dies and starts again. */
  datatype Turn<V> = Publishes(batch: seq<Sample<V>>, pages: nat, weather: nat -> Weather) | Restarts(fuel: nat)

  /** Samples that are new, and differ. */
  ghost predicate NewBatch<V>(batch: seq<Sample<V>>, seen: set<Sample<V>>) {
    && (forall i :: 0 <= i < |batch| ==> batch[i] !in seen)
    && (forall i, j :: 0 <= i < j < |batch| ==> batch[i] != batch[j])
  }

  ghost function BatchOf<V>(turn: Turn<V>): set<Sample<V>> {
    if turn.Publishes? then set s | s in turn.batch else {}
  }

  /** Every reading is journaled once. */
  ghost predicate FreshScript<V>(script: seq<Turn<V>>, seen: set<Sample<V>>) {
    script != [] ==>
      && (script[0].Publishes? ==> NewBatch(script[0].batch, seen))
      && FreshScript(script[1..], seen + BatchOf(script[0]))
  }

  /** The samples of the batches that were accepted. */
  ghost function AcceptedOf<V>(script: seq<Turn<V>>, accepted: seq<bool>): set<Sample<V>>
    requires |accepted| == |script|
  {
    if script == [] then {}
    else
      var n := |script| - 1;
      AcceptedOf(script[..n], accepted[..n]) + if accepted[n] then BatchOf(script[n]) else {}
  }

  /** No answer is without an error and has a null offset. */
  ghost predicate NoNull(w: Weather) {
    w.reply.Some? ==> forall i :: 0 <= i < |w.reply.value| ==> !IsNull(w.reply.value[i])
  }

  ghost predicate NeverNull(weather: nat -> Weather) { forall k :: NoNull(weather(k)) }

  predicate IsNull(result: Result) { result.error == "" && result.hasOffset && result.offset.None? }

  ghost predicate NoNulls<V>(script: seq<Turn<V>>) {
    forall k :: 0 <= k < |script| && script[k].Publishes? ==> NeverNull(script[k].weather)
  }

  ghost predicate Extends<V>(was: map<Sample<V>, Fate>, fate: map<Sample<V>, Fate>) {
    forall s :: s in was ==> s in fate && fate[s] == was[s]
  }

  ghost predicate NoNewBlind<V>(was: map<Sample<V>, Fate>, fate: map<Sample<V>, Fate>) {
    forall s :: s in fate && fate[s].Blind? ==> s in was
  }

  lemma LeftSince<V>(was: map<Sample<V>, Fate>, mid: map<Sample<V>, Fate>, fate: map<Sample<V>, Fate>)
    requires Extends(was, mid) && Extends(mid, fate)
    ensures Extends(was, fate)
    ensures NoNewBlind(was, mid) && NoNewBlind(mid, fate) ==> NoNewBlind(was, fate)
  {
  }

  lemma NoneLeftBlind<V>(rows: Rows<V>, results: seq<Result>, was: map<Sample<V>, Fate>, fate: map<Sample<V>, Fate>)
    requires |results| <= |rows| && LeftAs(rows, results, was, fate)
    requires forall i :: 0 <= i < |results| ==> !IsNull(results[i])
    ensures NoNewBlind(was, fate)
  {
    forall s | s in fate && s !in was ensures !fate[s].Blind? {
      assert AnsweredSo(rows, results, s, fate[s]);
      var i :| 0 <= i < |results| && rows[i].sample == s && fate[s] == FateOf(results[i]);
    }
  }

  const READING: Sample<int> := Sample(1, "topic", "signal", 7)

  /** An answer without an error whose offset is null retires its row, though
      the node stored nothing: no record of the sample is left. */
  method RetiredBlindRun() returns (connector: Connector<int>)
    ensures fresh(connector) && connector.Valid() && connector.taken == {READING}
    ensures connector.rows == [] && connector.node == {}
    ensures READING in connector.fate && connector.fate[READING] == Blind
  {
    connector := new Connector(1, 4);
    var ok := connector.AppendBatch([READING]);
    assert connector.rows[0].sample == READING;
    var answer := Result("", true, None, "");
    ghost var was := connector.rows;
    var out := connector.PublishPage(Weather(Some([answer]), _ => false, _ => true));
    assert DoneWith(answer, [answer]);
    assert out.Published?;
  }

  /** A page's ids are those of the journal's first rows; deleting them all
      leaves what is behind the page. */
  lemma SamePage<V>(before: Rows<V>, page: Rows<V>, results: seq<Result>, admitted: bool)
    requires Queue(before) && page <= before && |results| == |page|
    ensures AcceptedIds(before, results) == AcceptedIds(page, results)
    ensures AcceptedIds(page, results) + DecidedIds(page, results, |page|, admitted)
      == DecidedIds(before, results, |page|, admitted)
    ensures AllDecided(results, admitted, 0, |page|) ==>
      Without(before, DecidedIds(before, results, |page|, admitted)) == before[|page|..]
  {
    assert forall i :: 0 <= i < |page| ==> before[i] == page[i];
    if AllDecided(results, admitted, 0, |page|) { PageGone(before, page, results, admitted); }
  }

  lemma PageGone<V>(before: Rows<V>, page: Rows<V>, results: seq<Result>, admitted: bool)
    requires Queue(before) && page <= before && |results| == |page| && AllDecided(results, admitted, 0, |page|)
    ensures Without(before, DecidedIds(before, results, |page|, admitted)) == before[|page|..]
  {
    var ids, rest := DecidedIds(before, results, |page|, admitted), before[|page|..];
    assert before == page + rest;
    WithoutJoins(page, rest, ids);
    forall i | 0 <= i < |page| ensures page[i].id in ids { assert before[i] == page[i]; }
    WithoutAll(page, ids);
    forall i | 0 <= i < |rest| ensures rest[i].id !in ids { assert rest[i] == before[|page| + i]; }
    WithoutNone(rest, ids);
  }

  /** A page's rows are the journal's first ones. */
  lemma SameLeft<V>(before: Rows<V>, page: Rows<V>, results: seq<Result>, admitted: bool, was: map<Sample<V>, Fate>,
                    fate: map<Sample<V>, Fate>)
    requires page <= before && |results| == |page|
    ensures LeftAs(before, results, was, fate) <==> LeftAs(page, results, was, fate)
    ensures forall n: nat :: n <= |page| ==>
      (AllLeftAs(before, results, n, admitted, fate) <==> AllLeftAs(page, results, n, admitted, fate))
  {
    assert forall i :: 0 <= i < |page| ==> before[i] == page[i];
    forall s, f ensures AnsweredSo(before, results, s, f) <==> AnsweredSo(page, results, s, f) {}
  }

  lemma OneMoreLeft<V>(page: Rows<V>, results: seq<Result>, admitted: bool, i: nat, was: map<Sample<V>, Fate>,
                       mid: map<Sample<V>, Fate>, fate: map<Sample<V>, Fate>)
    requires |results| == |page| && i < |page| && page[i].sample !in mid
    requires fate == mid[page[i].sample := FateOf(results[i])]
    requires LeftAs(page, results, was, mid) && AllLeftAs(page, results, i, admitted, mid)
    ensures LeftAs(page, results, was, fate) && AllLeftAs(page, results, i + 1, admitted, fate)
  {
    OneMoreSo(page, results, i, was, mid, fate);
    forall j | 0 <= j < |results| && (results[j].Accepted() || (j < i + 1 && results[j].Final(admitted)))
      ensures page[j].sample in fate && fate[page[j].sample] == FateOf(results[j])
    {
      if j != i { assert page[j].sample in mid; }
    }
  }

  lemma OneMoreSo<V>(page: Rows<V>, results: seq<Result>, i: nat, was: map<Sample<V>, Fate>, mid: map<Sample<V>, Fate>,
                     fate: map<Sample<V>, Fate>)
    requires |results| == |page| && i < |page| && page[i].sample !in mid
    requires fate == mid[page[i].sample := FateOf(results[i])] && LeftAs(page, results, was, mid)
    ensures LeftAs(page, results, was, fate)
  {
    forall s | s in fate && s !in was ensures AnsweredSo(page, results, s, fate[s]) {
      if s != page[i].sample { assert AnsweredSo(page, results, s, mid[s]); }
    }
  }

  lemma NoneDecided<V>(page: Rows<V>, results: seq<Result>, admitted: bool)
    requires |results| == |page|
    ensures AcceptedIds(page, results) + DecidedIds(page, results, 0, admitted) == AcceptedIds(page, results)
  {
  }

  /** What is gone once one more answer was looked at. */
  lemma MoreDecided<V>(page: Rows<V>, results: seq<Result>, admitted: bool, i: nat)
    requires |results| == |page| && i < |page|
    ensures var gone := AcceptedIds(page, results) + DecidedIds(page, results, i, admitted);
      AcceptedIds(page, results) + DecidedIds(page, results, i + 1, admitted)
      == if results[i].Final(admitted) then gone + {page[i].id} else gone
  {
    var a := AcceptedIds(page, results);
    var x, y := DecidedIds(page, results, i, admitted), DecidedIds(page, results, i + 1, admitted);
    assert results[i].Accepted() ==> page[i].id in a;
    assert y == if Decides(results[i], admitted) then x + {page[i].id} else x;
  }

  /** A row that was neither accepted nor looked at is in the journal. */
  lemma StillThere<V>(before: Rows<V>, page: Rows<V>, results: seq<Result>, admitted: bool, i: nat)
    requires |results| == |page| && Queue(before) && page <= before && i < |page| && !results[i].Accepted()
    ensures page[i] in Without(before, AcceptedIds(page, results) + DecidedIds(page, results, i, admitted))
  {
    var gone := AcceptedIds(page, results) + DecidedIds(page, results, i, admitted);
    LeftExactly(before, gone, page[i]);
    assert page[i] == before[i] && forall k :: 0 <= k < |page| ==> page[k] == before[k];
  }
}
