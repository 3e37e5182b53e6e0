/** The executor of a node's `commands` stream: one delivery of one command. */
module CommandExecutor {
  import opened Options
  import opened CommandLedger

  /** How handling one command ends. */
  datatype Ending = Settled | Ignored | Stopping | Crashed

  const ANSWERED_LIMIT: nat := 4096

  /** The memory of answered commands, newest last, with one more. */
  function Remembered(answered: seq<string>, correlation: string): (r: seq<string>)
    ensures correlation in r
    ensures forall a :: a in r ==> a in answered || a == correlation
  {
    var kept := Without(answered, correlation) + [correlation];
    var r := if |kept| > ANSWERED_LIMIT then kept[|kept| - ANSWERED_LIMIT..] else kept;
    assert r[|r| - 1] == correlation;
    r
  }

  function Without(answered: seq<string>, correlation: string): (r: seq<string>)
    ensures |r| <= |answered|
    ensures forall a :: a in r <==> a in answered && a != correlation
  {
    if answered == [] then []
    else
      var front, last := answered[..|answered| - 1], answered[|answered| - 1];
      if last == correlation then Without(front, correlation) else Without(front, correlation) + [last]
  }

  ghost predicate Unique(s: seq<string>) {
    forall i, j :: 0 <= i < j < |s| ==> s[i] != s[j]
  }

  lemma {:induction false} UniqueSize(s: seq<string>, ids: set<string>)
    requires Unique(s) && forall a :: a in s ==> a in ids
    ensures |s| <= |ids|
  {
    if s != [] {
      var front, last := s[..|s| - 1], s[|s| - 1];
      UniqueSize(front, ids - {last});
    }
  }

  lemma {:induction false} WithoutUnique(answered: seq<string>, correlation: string)
    requires Unique(answered)
    ensures Unique(Without(answered, correlation))
  {
    if answered != [] {
      var front, last := answered[..|answered| - 1], answered[|answered| - 1];
      WithoutUnique(front, correlation);
      assert last !in front;
    }
  }

  lemma RemembersUnique(answered: seq<string>, correlation: string)
    requires Unique(answered)
    ensures Unique(Remembered(answered, correlation))
  {
    var kept := Without(answered, correlation) + [correlation];
    WithoutUnique(answered, correlation);
    forall i, j | 0 <= i < j < |kept| ensures kept[i] != kept[j] {
      assert j == |kept| - 1 ==> kept[i] in Without(answered, correlation);
    }
  }

  /** What was remembered last is at the end. */
  ghost predicate IsTail(recent: seq<string>, answered: seq<string>) {
    |recent| <= |answered| && answered[|answered| - |recent|..] == recent
  }

  lemma InTail(recent: seq<string>, answered: seq<string>)
    requires IsTail(recent, answered)
    ensures forall a :: a in recent ==> a in answered
  {
    forall a | a in recent ensures a in answered {
      var i :| 0 <= i < |recent| && recent[i] == a;
      assert answered[|answered| - |recent| + i] == a;
    }
  }

  /** One more id that was remembered recently. */
  function Later(recent: seq<string>, correlation: string): (r: seq<string>)
    ensures forall a :: a in r <==> a in recent || a == correlation
  {
    var r := Without(recent, correlation) + [correlation];
    assert r[|r| - 1] == correlation;
    r
  }

  lemma {:induction false} WithoutTail(answered: seq<string>, recent: seq<string>, correlation: string)
    requires IsTail(recent, answered)
    ensures IsTail(Without(recent, correlation), Without(answered, correlation))
  {
    if recent != [] {
      var front, tail := answered[..|answered| - 1], recent[..|recent| - 1];
      assert front[|front| - |tail|..] == tail;
      assert answered[|answered| - 1] == recent[|recent| - 1];
      WithoutTail(front, tail, correlation);
    }
  }

  /** While no more ids come up than the memory holds, none of them is
      forgotten, whatever is remembered from before. */
  lemma RemembersRecent(answered: seq<string>, recent: seq<string>, correlation: string, ids: set<string>)
    requires Unique(answered) && IsTail(recent, answered) && |ids| <= ANSWERED_LIMIT
    requires correlation in ids && forall a :: a in recent ==> a in ids
    ensures IsTail(Later(recent, correlation), Remembered(answered, correlation))
    ensures forall a :: a in Later(recent, correlation) ==> a in ids
  {
    WithoutTail(answered, recent, correlation);
    OneLonger(Without(answered, correlation), Without(recent, correlation), correlation);
    TailUnique(answered, recent);
    LaterUnique(recent, correlation);
    UniqueSize(Later(recent, correlation), ids);
    CutTail(Without(answered, correlation) + [correlation], Later(recent, correlation));
  }

  lemma OneLonger(answered: seq<string>, recent: seq<string>, correlation: string)
    requires IsTail(recent, answered)
    ensures IsTail(recent + [correlation], answered + [correlation])
  {
    var n := |answered| - |recent|;
    assert (answered + [correlation])[n..] == answered[n..] + [correlation];
  }

  lemma LaterUnique(recent: seq<string>, correlation: string)
    requires Unique(recent)
    ensures Unique(Later(recent, correlation))
  {
    WithoutUnique(recent, correlation);
    var later := Later(recent, correlation);
    forall i, j | 0 <= i < j < |later| ensures later[i] != later[j] {
      assert j == |later| - 1 ==> later[i] in Without(recent, correlation);
    }
  }

  /** Forgetting the oldest keeps a tail that fits. */
  lemma CutTail(kept: seq<string>, recent: seq<string>)
    requires IsTail(recent, kept) && |recent| <= ANSWERED_LIMIT
    ensures IsTail(recent, if |kept| > ANSWERED_LIMIT then kept[|kept| - ANSWERED_LIMIT..] else kept)
  {
    if |kept| > ANSWERED_LIMIT {
      var cut := kept[|kept| - ANSWERED_LIMIT..];
      assert cut[|cut| - |recent|..] == kept[|kept| - |recent|..];
    }
  }

  lemma TailUnique(answered: seq<string>, recent: seq<string>)
    requires Unique(answered) && IsTail(recent, answered)
    ensures Unique(recent)
  {
    forall i, j | 0 <= i < j < |recent| ensures recent[i] != recent[j] {
      assert recent[i] == answered[|answered| - |recent| + i] && recent[j] == answered[|answered| - |recent| + j];
    }
  }

  class Executor {
    // Durable.
    var ledger: Ledger
    // In memory.
    var answered: seq<string>
    /** How many durable steps are taken before the next crash. */
    var fuel: nat

    ghost var runs: seq<Command>
    ghost var records: seq<(string, Entry)>
    ghost var sent: seq<(string, Entry)>

    ghost function Done(): World
      reads this
    {
      World(ledger, runs, records, sent)
    }

    constructor (fuel: nat)
      ensures Done() == World(map[], [], [], []) && answered == [] && this.fuel == fuel
    {
      ledger, answered, this.fuel := map[], [], fuel;
      runs, records, sent := [], [], [];
    }

    /** `ledger.command_started`: an entry that is there stays. */
    method CommandStarted(key: string) returns (alive: bool)
      modifies this`ledger, this`fuel
      ensures alive <==> old(fuel) > 0
      ensures Done() == if alive then Do(old(Done()), Start(key)) else old(Done())
      ensures fuel == if alive then old(fuel) - 1 else 0
    {
      if fuel == 0 { return false; }
      fuel := fuel - 1;
      if key !in ledger { ledger := ledger[key := None]; }
      return true;
    }

    /** `ledger.command_answered`. */
    method CommandAnswered(key: string, entry: Entry) returns (alive: bool)
      modifies this`ledger, this`fuel, this`records
      ensures alive <==> old(fuel) > 0
      ensures Done() == if alive then Do(old(Done()), Effect.Record(key, entry)) else old(Done())
      ensures fuel == if alive then old(fuel) - 1 else 0
    {
      if fuel == 0 { return false; }
      fuel := fuel - 1;
      ledger := ledger[key := Some(entry)];
      records := records + [(key, entry)];
      return true;
    }

    /** The handler runs. */
    method Invoke(c: Command) returns (alive: bool)
      modifies this`fuel, this`runs
      ensures alive <==> old(fuel) > 0
      ensures Done() == if alive then Do(old(Done()), Run(c)) else old(Done())
      ensures fuel == if alive then old(fuel) - 1 else 0
    {
      if fuel == 0 { return false; }
      fuel := fuel - 1;
      runs := runs + [c];
      return true;
    }

    /** Publish `entry` so many times. */
    method Send(correlation: string, entry: Entry, times: nat) returns (alive: bool)
      modifies this`fuel, this`sent
      ensures alive <==> old(fuel) >= times
      ensures var n := Min(old(fuel), times);
        Done() == DoAll(old(Done()), Publishing(correlation, entry, n)) && fuel == old(fuel) - n
      ensures alive && times > 0 ==> LastFor(sent, correlation)
    {
      ghost var u := Done();
      PublishingAdds(u, correlation, entry, Min(fuel, times));
      for i := 0 to times
        invariant i <= old(fuel) && fuel == old(fuel) - i
        invariant Done() == u.(sent := u.sent + Copies(correlation, entry, i))
      {
        if fuel == 0 { return false; }
        fuel := fuel - 1;
        sent := sent + [(correlation, entry)];
      }
      assert times > 0 ==> sent[|sent| - 1] == (correlation, entry);
      return true;
    }

    /** The last thing published is the answer of `correlation`, and the node
        confirmed it. */
    ghost predicate Confirmed(correlation: string, w: Weather)
      reads this`sent
    {
      w.confirmed && LastFor(sent, correlation)
    }

    /** Publish `entry` until the node confirms it or the service stops. */
    method PublishAnswer(correlation: string, entry: Entry, w: Weather) returns (end: Ending)
      modifies this`fuel, this`sent, this`answered
      ensures !end.Ignored?
      ensures end.Crashed? <==> old(fuel) < w.sends
      ensures var n := Min(old(fuel), w.sends);
        Done() == DoAll(old(Done()), Publishing(correlation, entry, n)) && fuel == old(fuel) - n
      ensures end.Settled? ==> answered == Remembered(old(answered), correlation)
      ensures !end.Settled? ==> answered == old(answered)
      ensures end.Settled? <==> old(fuel) >= w.sends && w.sends > 0 && w.confirmed
      ensures end.Settled? ==> Confirmed(correlation, w)
    {
      var alive := Send(correlation, entry, w.sends);
      if !alive { return Crashed; }
      if w.sends == 0 || !w.confirmed { return Stopping; }
      answered := Remembered(answered, correlation);
      return Settled;
    }

    /** Start a command under every key it has. */
    method Begin(c: Command) returns (alive: bool)
      modifies this`ledger, this`fuel
      ensures Did(old(Done()), old(fuel), Starting(c), !alive)
    {
      ghost var u, was := Done(), fuel;
      ghost var a: seq<Effect> := if c.correlation != "" then [Start(c.correlation)] else [];
      ghost var b: seq<Effect> := if c.HasKey() then [Start(c.Key())] else [];
      One(u, Start(c.correlation));
      if c.correlation != "" {
        alive := CommandStarted(c.correlation);
        if !alive { assert Starting(c)[..0] == []; return; }
      }
      ghost var mid, left := Done(), fuel;
      One(mid, Start(c.Key()));
      assert a[..|a|] == a && b[..0] == [] && b[..|b|] == b;
      Joined(u, was, a, b, mid, left);
      alive := true;
      if c.HasKey() { alive := CommandStarted(c.Key()); }
    }

    /** Run it, and record the outcome of its operation. */
    method RunIt(c: Command, w: Weather) returns (alive: bool)
      modifies this`ledger, this`fuel, this`records, this`runs
      ensures Did(old(Done()), old(fuel), [Run(c)] + Outcomes(c, w), !alive)
    {
      ghost var u, was := Done(), fuel;
      ghost var a, b := [Run(c)], Outcomes(c, w);
      One(u, Run(c));
      alive := Invoke(c);
      if !alive { assert (a + b)[..0] == []; return; }
      ghost var mid, left := Done(), fuel;
      One(mid, Effect.Record(c.Key(), Outcome(c.asks, w.verdict)));
      assert a[..|a|] == a && b[..0] == [] && b[..|b|] == b;
      Joined(u, was, a, b, mid, left);
      if c.HasKey() { alive := CommandAnswered(c.Key(), Outcome(c.asks, w.verdict)); }
    }

    /** Start, run, record the outcome. */
    method Execute(c: Command, w: Weather) returns (alive: bool)
      modifies this`ledger, this`fuel, this`records, this`runs
      ensures Did(old(Done()), old(fuel), Executing(c, w), !alive)
    {
      ghost var u, was := Done(), fuel;
      ghost var a, b := Starting(c), [Run(c)] + Outcomes(c, w);
      assert Executing(c, w) == a + b;
      alive := Begin(c);
      if !alive { assert (a + b)[..was] == a[..was]; return; }
      assert a[..|a|] == a;
      ghost var mid, left := Done(), fuel;
      alive := RunIt(c, w);
      Joined(u, was, a, b, mid, left);
    }

    /** The world is what the first `n` steps of `plan` make of `u`; all of it
        was done unless a crash came first. */
    ghost predicate Did(u: World, was: nat, plan: seq<Effect>, crashed: bool)
      reads this
    {
      var n := Min(was, |plan|);
      Done() == DoAll(u, plan[..n]) && fuel == was - n && (crashed <==> was < |plan|)
    }

    /** Record an answer, then publish it until it is confirmed. */
    method RecordAndPublish(correlation: string, entry: Entry, w: Weather) returns (end: Ending)
      modifies this`ledger, this`fuel, this`records, this`sent, this`answered
      ensures Did(old(Done()), old(fuel),
                  [Effect.Record(correlation, entry)] + Publishing(correlation, entry, w.sends), end.Crashed?)
      ensures !end.Ignored?
      ensures answered == if end.Settled? then Remembered(old(answered), correlation) else old(answered)
      ensures end.Settled? ==> Confirmed(correlation, w)
      ensures w.sends > 0 && w.confirmed ==> !end.Stopping?
    {
      PublishedUpto(Done(), fuel, correlation, entry, w.sends);
      var alive := CommandAnswered(correlation, entry);
      if !alive { return Crashed; }
      end := PublishAnswer(correlation, entry, w);
    }

    /** Answer a command that says how. */
    method Answer(c: Command, verdict: Verdict, replayed: bool, w: Weather) returns (end: Ending)
      modifies this`ledger, this`fuel, this`records, this`sent, this`answered
      ensures Did(old(Done()), old(fuel), Answering(c, verdict, replayed, w), end.Crashed?)
      ensures !end.Ignored? && answered == Noted(old(answered), c, end)
      ensures end.Settled? && c.correlation != "" ==> Confirmed(c.correlation, w)
      ensures w.sends > 0 && w.confirmed ==> !end.Stopping?
    {
      if c.correlation == "" {
        One(Done(), Run(c));
        return Settled;
      }
      var entry := Body(CommandLedger.Answer.Answer(c.correlation, verdict, w.now, replayed));
      end := RecordAndPublish(c.correlation, entry, w);
    }

    /** A command the ledger knows. */
    method AnswerAgain(c: Command, w: Weather) returns (end: Ending)
      requires c.correlation != "" && c.correlation in ledger
      modifies this`ledger, this`fuel, this`records, this`sent, this`answered
      ensures Did(old(Done()), old(fuel), AnsweringAgain(c, old(ledger)[c.correlation], w), end.Crashed?)
      ensures !end.Ignored? && answered == Noted(old(answered), c, end)
      ensures end.Settled? && c.correlation != "" ==> Confirmed(c.correlation, w)
      ensures w.sends > 0 && w.confirmed ==> !end.Stopping?
    {
      if ledger[c.correlation].Some? {
        PublishingPrefix(c.correlation, ledger[c.correlation].value, w.sends, Min(fuel, w.sends));
        end := PublishAnswer(c.correlation, ledger[c.correlation].value, w);
      } else {
        end := RecordAndPublish(c.correlation, Body(CommandLedger.Answer.Answer(c.correlation, LOST, w.now, false)), w);
      }
    }

    /** A repeat of an operation. */
    method AnswerRepeat(c: Command, w: Weather) returns (end: Ending)
      requires c.HasKey() && c.Key() in ledger
      modifies this`ledger, this`fuel, this`records, this`sent, this`answered
      ensures Did(old(Done()), old(fuel), Repeating(c, old(ledger)[c.Key()], w), end.Crashed?)
      ensures !end.Ignored? && answered == Noted(old(answered), c, end)
      ensures end.Settled? && c.correlation != "" ==> Confirmed(c.correlation, w)
      ensures w.sends > 0 && w.confirmed ==> !end.Stopping?
    {
      var recorded := ledger[c.Key()];
      var reply := Replay(c.asks, recorded);
      if recorded.Some? {
        assert Repeating(c, recorded, w) == Answering(c, reply.0, reply.1, w);
        end := Answer(c, reply.0, reply.1, w);
        return;
      }
      ghost var u, was, first := Done(), fuel, [Effect.Record(c.Key(), Outcome(c.asks, LOST))];
      One(u, first[0]);
      var alive := CommandAnswered(c.Key(), Outcome(c.asks, LOST));
      if !alive {
        assert Repeating(c, recorded, w)[..0] == [];
        return Crashed;
      }
      ghost var mid, left := Done(), fuel;
      end := Answer(c, reply.0, reply.1, w);
      Joined(u, was, first, Answering(c, reply.0, reply.1, w), mid, left);
    }

    /** A command to be run. */
    method RunAndAnswer(c: Command, w: Weather) returns (end: Ending)
      modifies this
      ensures Did(old(Done()), old(fuel), Executing(c, w) + Answering(c, w.verdict, false, w), end.Crashed?)
      ensures !end.Ignored? && answered == Noted(old(answered), c, end)
      ensures end.Settled? && c.correlation != "" ==> Confirmed(c.correlation, w)
      ensures w.sends > 0 && w.confirmed ==> !end.Stopping?
    {
      ghost var u, was, plan := Done(), fuel, Executing(c, w);
      var alive := Execute(c, w);
      if !alive {
        assert (plan + Answering(c, w.verdict, false, w))[..was] == plan[..was];
        return Crashed;
      }
      assert plan[..|plan|] == plan;
      ghost var mid, left := Done(), fuel;
      end := Answer(c, w.verdict, false, w);
      Joined(u, was, plan, Answering(c, w.verdict, false, w), mid, left);
    }

    /** Handle one delivery of a declared command. What it does, in order, is
        its plan, and a crash leaves a prefix of it done. */
    method Handle(c: Command, w: Weather) returns (end: Ending)
      modifies this
      ensures Did(old(Done()), old(fuel), Plan(old(ledger), Set(old(answered)), c, w), end.Crashed?)
      ensures end.Ignored? <==> c.correlation in old(answered)
      ensures answered == Noted(old(answered), c, end)
      ensures end.Settled? && c.correlation != "" ==> Confirmed(c.correlation, w)
      ensures w.sends > 0 && w.confirmed && !w.link.ServiceStops? ==> !end.Stopping?
      ensures end.Crashed? ==> fuel == 0
    {
      One(Done(), Run(c));
      if c.correlation in answered { return Ignored; }
      if c.correlation != "" && c.correlation in ledger {
        end := AnswerAgain(c, w);
      } else if c.envelope.Some? {
        end := Answer(c, c.envelope.value, false, w);
      } else if c.HasKey() && c.Key() in ledger {
        end := AnswerRepeat(c, w);
      } else if w.expired {
        end := Answer(c, EXPIRED, false, w);
      } else if w.link.ServiceStops? {
        end := Stopping;
      } else if w.link.DownPastExpiry? {
        end := Answer(c, EXPIRED_DOWN, false, w);
      } else {
        end := RunAndAnswer(c, w);
      }
    }
  }

  /** The memory of answered commands after handling one. */
  function Noted(answered: seq<string>, c: Command, end: Ending): seq<string> {
    if end.Settled? && c.correlation != "" then Remembered(answered, c.correlation) else answered
  }

  ghost predicate LastFor(sent: seq<(string, Entry)>, correlation: string) {
    sent != [] && sent[|sent| - 1].0 == correlation
  }

  function Copies(correlation: string, entry: Entry, n: nat): seq<(string, Entry)> {
    if n == 0 then [] else Copies(correlation, entry, n - 1) + [(correlation, entry)]
  }

  lemma DoAllLast(u: World, es: seq<Effect>, e: Effect)
    ensures DoAll(u, es + [e]) == Do(DoAll(u, es), e)
  {
    assert (es + [e])[..|es|] == es;
  }

  lemma {:induction false} PublishingAdds(u: World, correlation: string, entry: Entry, n: nat)
    ensures DoAll(u, Publishing(correlation, entry, n)) == u.(sent := u.sent + Copies(correlation, entry, n))
  {
    if n == 0 {
      assert u.sent + [] == u.sent;
    } else {
      PublishingAdds(u, correlation, entry, n - 1);
      DoAllLast(u, Publishing(correlation, entry, n - 1), Publish(correlation, entry));
      OneMoreCopy(u.sent, correlation, entry, n);
    }
  }

  lemma OneMoreCopy(sent: seq<(string, Entry)>, correlation: string, entry: Entry, n: nat)
    requires n > 0
    ensures sent + Copies(correlation, entry, n) == (sent + Copies(correlation, entry, n - 1)) + [(correlation, entry)]
  {
  }

  /** An answer that is recorded and then published, with so many steps left. */
  lemma PublishedUpto(u: World, was: nat, correlation: string, entry: Entry, times: nat)
    ensures var first, plan := Effect.Record(correlation, entry),
                               [Effect.Record(correlation, entry)] + Publishing(correlation, entry, times);
      && |plan| == 1 + times
      && DoAll(u, plan[..Min(was, |plan|)])
         == if was == 0 then u else DoAll(Do(u, first), Publishing(correlation, entry, Min(was - 1, times)))
  {
    if was == 0 {
      PublishingPrefix(correlation, entry, times, 0);
    } else {
      ThenPublishing(u, correlation, entry, times, Min(was - 1, times));
    }
  }

  lemma ThenPublishing(u: World, correlation: string, entry: Entry, times: nat, n: nat)
    requires n <= times
    ensures var plan := [Effect.Record(correlation, entry)] + Publishing(correlation, entry, times);
      |plan| == 1 + times
      && DoAll(u, plan[..1 + n]) == DoAll(Do(u, Effect.Record(correlation, entry)), Publishing(correlation, entry, n))
  {
    var first := Effect.Record(correlation, entry);
    PublishingPrefix(correlation, entry, times, n);
    One(u, first);
    DoAllJoins(u, [first], Publishing(correlation, entry, n));
    assert ([first] + Publishing(correlation, entry, times))[..1 + n] == [first] + Publishing(correlation, entry, n);
  }

  /** A prefix of a plan in two parts. */
  lemma Joined(u: World, was: nat, a: seq<Effect>, b: seq<Effect>, mid: World, left: nat)
    requires |a| <= was && mid == DoAll(u, a) && left == was - |a|
    ensures Min(was, |a + b|) == |a| + Min(left, |b|)
    ensures DoAll(u, (a + b)[..Min(was, |a + b|)]) == DoAll(mid, b[..Min(left, |b|)])
  {
    var n := Min(left, |b|);
    assert (a + b)[..|a| + n] == a + b[..n];
    DoAllJoins(u, a, b[..n]);
  }

  function Set(s: seq<string>): (r: set<string>)
    ensures forall a :: a in r <==> a in s
  {
    set a | a in s
  }

  lemma {:induction false} PublishingPrefix(correlation: string, entry: Entry, times: nat, n: nat)
    requires n <= times
    ensures |Publishing(correlation, entry, times)| == times
    ensures Publishing(correlation, entry, times)[..n] == Publishing(correlation, entry, n)
  {
    PublishingOnly(correlation, entry, times);
    PublishingOnly(correlation, entry, n);
  }
}
