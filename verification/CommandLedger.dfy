/** What handling one command does, durable step by durable step.

    `Plan` is the sequence of ledger writes, handler run and publications that
    one delivery of a command takes when nothing stops it; a crash leaves some
    prefix of it done.  The claims of the executor are about every prefix of
    every plan, in any number of deliveries. */
module CommandLedger {
  import opened Options

  /** An outcome: code, message and result. */
  datatype Verdict = Verdict(code: int, message: string, result: string)

  /** An `_Ack` as it is published; `at` is when it was built. */
  datatype Answer = Answer(correlation: string, verdict: Verdict, at: int, replayed: bool)

  /** What the ledger holds for a key: a command's answer, or the outcome of
      an operation with what it asked for. */
  datatype Entry = Body(answer: Answer) | Outcome(asks: string, verdict: Verdict)

  type Ledger = map<string, Option<Entry>>

  /** A declared command. `asks` is everything an operation's digest covers;
      `envelope` is the refusal of an invalid envelope, if it is invalid. */
  datatype Command = Command(correlation: string, actor: string, operation: string, asks: string,
                             envelope: Option<Verdict>) {

    predicate HasKey() { operation != "" && envelope.None? }

    function Key(): string { OperationKey(actor, operation) }
  }

  /** One durable step: a key is started, the handler runs, an entry is
      recorded under a key, an entry is published as the answer of a command. */
  datatype Effect =
    | Start(key: string)
    | Run(command: Command)
    | Record(key: string, entry: Entry)
    | Publish(correlation: string, entry: Entry)

  /** The ledger, and everything that was ever done: handler runs, records, publications. */
  datatype World = World(ledger: Ledger, runs: seq<Command>, records: seq<(string, Entry)>, sent: seq<(string, Entry)>)

  /** The broker link when a command is about to run. */
  datatype Link = Up | DownPastExpiry | ServiceStops

  /** The surroundings of one delivery: the clock, the link, what the handler
      answers when it runs, how often the answer is sent, and whether the node
      confirmed it in the end. */
  datatype Weather = Weather(now: int, expired: bool, link: Link, verdict: Verdict, sends: nat, confirmed: bool)

  const ACK_CONFLICT := 409
  const ACK_EXPIRED := 498
  const ACK_UNKNOWN := 504

  const LOST := Verdict(ACK_UNKNOWN, "outcome unknown: the service stopped while executing it", "")
  const CONFLICT := Verdict(ACK_CONFLICT, "refused: operation_id already used for a different command", "refused")
  const EXPIRED := Verdict(ACK_EXPIRED, "expired before it was executed", "")
  const EXPIRED_DOWN := Verdict(ACK_EXPIRED, "expired while the broker link was down; not executed", "")

  // ------------------------------------------------------ operation keys

  /** A JSON string's escaping, as far as it matters: it keeps strings apart. */
  function Escaped(s: string): string {
    if s == "" then ""
    else (if s[0] == '"' || s[0] == '\\' then ['\\', s[0]] else [s[0]]) + Escaped(s[1..])
  }

  const OPENING := "op\U{1F}[\""
  const MIDDLE := ", \""
  const CLOSING := "]"

  /** The ledger key of an operation: its id, scoped to the attested sender. */
  function OperationKey(actor: string, operation: string): string {
    OPENING + (Escaped(actor) + ['"'] + (MIDDLE + (Escaped(operation) + ['"'] + CLOSING)))
  }

  lemma EscapedStarts(a: string)
    ensures a != "" ==> Escaped(a) != "" && Escaped(a)[0] != '"'
  {
  }

  lemma {:induction false} EscapedEnds(a: string, b: string, x: string, y: string)
    requires Escaped(a) + ['"'] + x == Escaped(b) + ['"'] + y
    ensures a == b && x == y
  {
    var u, v := Escaped(a) + ['"'] + x, Escaped(b) + ['"'] + y;
    EscapedStarts(a);
    EscapedStarts(b);
    assert b == "" ==> v[0] == '"';
    if a == "" {
      assert u[0] == '"';
      assert u[1..] == x && v[1..] == y;
    } else {
      assert u[0] == Escaped(a)[0];
      var n := if a[0] == '"' || a[0] == '\\' then 2 else 1;
      assert n == 2 ==> u[1] == Escaped(a)[1] && v[1] == Escaped(b)[1];
      assert a[0] == b[0];
      assert u[n..] == Escaped(a[1..]) + ['"'] + x;
      assert v[n..] == Escaped(b[1..]) + ['"'] + y;
      EscapedEnds(a[1..], b[1..], x, y);
    }
  }

  lemma Cancel(p: string, x: string, y: string)
    requires p + x == p + y
    ensures x == y
  {
    assert (p + x)[|p|..] == x && (p + y)[|p|..] == y;
  }

  /** No two senders and no two operations of one sender share an operation
      key. A correlation id may still be one. */
  lemma KeysApart(actor: string, operation: string, actor': string, operation': string)
    requires OperationKey(actor, operation) == OperationKey(actor', operation')
    ensures actor == actor' && operation == operation'
  {
    var x, y := Escaped(operation) + ['"'] + CLOSING, Escaped(operation') + ['"'] + CLOSING;
    Cancel(OPENING, Escaped(actor) + ['"'] + (MIDDLE + x), Escaped(actor') + ['"'] + (MIDDLE + y));
    EscapedEnds(actor, actor', MIDDLE + x, MIDDLE + y);
    Cancel(MIDDLE, x, y);
    EscapedEnds(operation, operation', CLOSING, CLOSING);
  }

  // ------------------------------------------------------------- the plan

  /** The answer to a repeated operation, from what the ledger holds for it:
      the verdict, and whether it is a replay. */
  function Replay(asks: string, recorded: Option<Entry>): (Verdict, bool) {
    match recorded
    case None => (LOST, true)
    case Some(Outcome(was, verdict)) => if was == asks then (verdict, true) else (CONFLICT, false)
    case Some(Body(_)) => (CONFLICT, false)
  }

  function Publishing(correlation: string, entry: Entry, times: nat): seq<Effect> {
    if times == 0 then [] else Publishing(correlation, entry, times - 1) + [Publish(correlation, entry)]
  }

  /** Record the answer of a command, then publish it until it is confirmed. */
  function Answering(c: Command, verdict: Verdict, replayed: bool, w: Weather): seq<Effect> {
    if c.correlation == "" then []
    else
      var entry := Body(Answer(c.correlation, verdict, w.now, replayed));
      [Record(c.correlation, entry)] + Publishing(c.correlation, entry, w.sends)
  }

  /** A command the ledger knows is answered again, never run. */
  function AnsweringAgain(c: Command, recorded: Option<Entry>, w: Weather): seq<Effect> {
    if recorded.Some? then Publishing(c.correlation, recorded.value, w.sends)
    else
      var entry := Body(Answer(c.correlation, LOST, w.now, false));
      [Record(c.correlation, entry)] + Publishing(c.correlation, entry, w.sends)
  }

  /** A repeat of an operation is answered from what the ledger holds for it;
      one that was started and never finished is recorded as lost first. */
  function Repeating(c: Command, recorded: Option<Entry>, w: Weather): seq<Effect> {
    var (verdict, replayed) := Replay(c.asks, recorded);
    (if recorded.None? then [Record(c.Key(), Outcome(c.asks, LOST))] else []) + Answering(c, verdict, replayed, w)
  }

  function Starting(c: Command): seq<Effect> {
    (if c.correlation != "" then [Start(c.correlation)] else [])
    + (if c.HasKey() then [Start(c.Key())] else [])
  }

  /** Start it, run it, record the operation's outcome. */
  function Executing(c: Command, w: Weather): seq<Effect> {
    Starting(c) + [Run(c)] + Outcomes(c, w)
  }

  function Outcomes(c: Command, w: Weather): seq<Effect> {
    if c.HasKey() then [Record(c.Key(), Outcome(c.asks, w.verdict))] else []
  }

  /** Whether the handler is to run: nothing is known of the command or of its
      operation, its envelope is valid and it has not expired. */
  predicate Runs(ledger: Ledger, c: Command, w: Weather) {
    && (c.correlation == "" || c.correlation !in ledger)
    && c.envelope.None?
    && (c.HasKey() ==> c.Key() !in ledger)
    && !w.expired && w.link.Up?
  }

  /** Everything one delivery of `c` does, `answered` being the commands whose
      answers were already seen or confirmed. */
  function Plan(ledger: Ledger, answered: set<string>, c: Command, w: Weather): seq<Effect> {
    if c.correlation in answered then []
    else if c.correlation != "" && c.correlation in ledger then AnsweringAgain(c, ledger[c.correlation], w)
    else if c.envelope.Some? then Answering(c, c.envelope.value, false, w)
    else if c.HasKey() && c.Key() in ledger then Repeating(c, ledger[c.Key()], w)
    else if w.expired then Answering(c, EXPIRED, false, w)
    else if w.link.ServiceStops? then []
    else if w.link.DownPastExpiry? then Answering(c, EXPIRED_DOWN, false, w)
    else Executing(c, w) + Answering(c, w.verdict, false, w)
  }

  function Do(u: World, e: Effect): World {
    match e
    case Start(key) => if key in u.ledger then u else u.(ledger := u.ledger[key := None])
    case Run(c) => u.(runs := u.runs + [c])
    case Record(key, entry) => u.(ledger := u.ledger[key := Some(entry)], records := u.records + [(key, entry)])
    case Publish(correlation, entry) => u.(sent := u.sent + [(correlation, entry)])
  }

  function DoAll(u: World, es: seq<Effect>): World {
    if es == [] then u else Do(DoAll(u, es[..|es| - 1]), es[|es| - 1])
  }

  lemma {:induction false} DoAllJoins(u: World, a: seq<Effect>, b: seq<Effect>)
    ensures DoAll(u, a + b) == DoAll(DoAll(u, a), b)
  {
    if b == [] {
      assert a + b == a;
    } else {
      assert (a + b)[..|a + b| - 1] == a + b[..|b| - 1];
      DoAllJoins(u, a, b[..|b| - 1]);
    }
  }

  // ---------------------------------------------------------- what is kept

  /** What every run keeps: a handler ran at most once per correlation id and
      at most once per operation, having been started before; and whatever was
      published for a correlation id is what the ledger holds for it. */
  ghost predicate Good(u: World) {
    && (forall i :: 0 <= i < |u.runs| ==> Known(u.ledger, u.runs[i]))
    && (forall i, j {:trigger Apart(u.runs[i], u.runs[j])} :: 0 <= i < j < |u.runs| ==> Apart(u.runs[i], u.runs[j]))
    && (forall i :: 0 <= i < |u.sent| ==> Holds(u.ledger, u.sent[i].0, u.sent[i].1))
  }

  predicate Known(ledger: Ledger, c: Command) {
    && (c.correlation != "" ==> c.correlation in ledger)
    && (c.HasKey() ==> c.Key() in ledger)
  }

  /** Two runs that share neither a correlation id nor an operation. */
  predicate Apart(a: Command, b: Command) {
    && (a.correlation != "" ==> a.correlation != b.correlation)
    && (a.HasKey() && b.HasKey() ==> a.Key() != b.Key())
  }

  predicate Holds(ledger: Ledger, key: string, entry: Entry) {
    key in ledger && ledger[key] == Some(entry)
  }

  /** What the ledger must look like before an effect, for `Good` to be kept. */
  ghost predicate Allowed(u: World, e: Effect) {
    match e
    case Start(_) => true
    case Run(c) => Known(u.ledger, c) && forall i :: 0 <= i < |u.runs| ==> Apart(u.runs[i], c)
    case Record(key, _) => forall i :: 0 <= i < |u.sent| ==> u.sent[i].0 != key
    case Publish(correlation, entry) => Holds(u.ledger, correlation, entry)
  }

  lemma AllowedKeepsGood(u: World, e: Effect)
    requires Good(u) && Allowed(u, e)
    ensures Good(Do(u, e))
  {
    var v := Do(u, e);
    forall i | 0 <= i < |v.runs| ensures Known(v.ledger, v.runs[i]) {
      assert i < |u.runs| ==> Known(u.ledger, u.runs[i]);
    }
    forall i, j | 0 <= i < j < |v.runs| ensures Apart(v.runs[i], v.runs[j]) {
      if j < |u.runs| { assert Apart(u.runs[i], u.runs[j]); }
    }
    forall i | 0 <= i < |v.sent| ensures Holds(v.ledger, v.sent[i].0, v.sent[i].1) {
      assert i < |u.sent| ==> Holds(u.ledger, u.sent[i].0, u.sent[i].1);
    }
  }

  /** Every effect of `es`, done in turn from `u`, is allowed when it comes. */
  ghost predicate AllAllowed(u: World, es: seq<Effect>) {
    es == [] || (AllAllowed(u, es[..|es| - 1]) && Allowed(DoAll(u, es[..|es| - 1]), es[|es| - 1]))
  }

  lemma {:induction false} PrefixGood(u: World, es: seq<Effect>, n: nat)
    requires Good(u) && AllAllowed(u, es) && n <= |es|
    ensures Good(DoAll(u, es[..n]))
    decreases |es|
  {
    if n == |es| {
      assert es[..n] == es;
      if es != [] {
        PrefixGood(u, es[..|es| - 1], |es| - 1);
        assert es[..|es| - 1][..|es| - 1] == es[..|es| - 1];
        AllowedKeepsGood(DoAll(u, es[..|es| - 1]), es[|es| - 1]);
      }
    } else {
      PrefixGood(u, es[..|es| - 1], n);
      assert es[..|es| - 1][..n] == es[..n];
    }
  }

  lemma One(u: World, e: Effect)
    ensures DoAll(u, []) == u && AllAllowed(u, [])
    ensures DoAll(u, [e]) == Do(u, e)
    ensures Allowed(u, e) ==> AllAllowed(u, [e])
  {
    assert [e][..0] == [];
  }

  lemma {:induction false} AllAllowedJoins(u: World, a: seq<Effect>, b: seq<Effect>)
    requires AllAllowed(u, a) && AllAllowed(DoAll(u, a), b)
    ensures AllAllowed(u, a + b)
  {
    if b == [] {
      assert a + b == a;
    } else {
      assert (a + b)[..|a + b| - 1] == a + b[..|b| - 1];
      AllAllowedJoins(u, a, b[..|b| - 1]);
      DoAllJoins(u, a, b[..|b| - 1]);
    }
  }

  lemma {:induction false} PublishingAllowed(u: World, correlation: string, entry: Entry, times: nat)
    requires Holds(u.ledger, correlation, entry)
    ensures AllAllowed(u, Publishing(correlation, entry, times))
    ensures DoAll(u, Publishing(correlation, entry, times)).ledger == u.ledger
  {
    if times > 0 {
      PublishingAllowed(u, correlation, entry, times - 1);
      assert Publishing(correlation, entry, times)[..|Publishing(correlation, entry, times)| - 1]
        == Publishing(correlation, entry, times - 1);
    }
  }

  lemma AnsweringAllowed(u: World, c: Command, verdict: Verdict, replayed: bool, w: Weather)
    requires c.correlation != "" ==> forall i :: 0 <= i < |u.sent| ==> u.sent[i].0 != c.correlation
    ensures AllAllowed(u, Answering(c, verdict, replayed, w))
  {
    if c.correlation != "" {
      var entry := Body(Answer(c.correlation, verdict, w.now, replayed));
      RecordAllowed(u, c.correlation, entry, w.sends);
    }
  }

  /** An answer no one was sent yet can be recorded, and then published. */
  lemma RecordAllowed(u: World, key: string, entry: Entry, times: nat)
    requires forall i :: 0 <= i < |u.sent| ==> u.sent[i].0 != key
    ensures AllAllowed(u, [Record(key, entry)] + Publishing(key, entry, times))
  {
    var first := [Record(key, entry)];
    One(u, Record(key, entry));
    PublishingAllowed(DoAll(u, first), key, entry, times);
    AllAllowedJoins(u, first, Publishing(key, entry, times));
  }

  /** After the start of a command, only its own keys are new. */
  lemma StartingStarts(u: World, c: Command)
    ensures AllAllowed(u, Starting(c))
    ensures var v := DoAll(u, Starting(c));
      Known(v.ledger, c) && v.runs == u.runs && v.sent == u.sent && v.records == u.records
    ensures forall k :: k in u.ledger ==>
      k in DoAll(u, Starting(c)).ledger && DoAll(u, Starting(c)).ledger[k] == u.ledger[k]
  {
    var a := if c.correlation != "" then [Start(c.correlation)] else [];
    var b := if c.HasKey() then [Start(c.Key())] else [];
    One(u, Start(c.correlation));
    Started(u, c.correlation);
    var v := DoAll(u, a);
    One(v, Start(c.Key()));
    Started(v, c.Key());
    DoAllJoins(u, a, b);
    AllAllowedJoins(u, a, b);
  }

  /** Starting a key changes no other. */
  lemma Started(u: World, key: string)
    ensures var v := Do(u, Start(key));
      && v == u.(ledger := v.ledger) && key in v.ledger
      && forall k :: k in u.ledger ==> k in v.ledger && v.ledger[k] == u.ledger[k]
  {
  }

  lemma ExecutingAllowed(u: World, c: Command, w: Weather)
    requires Good(u) && Runs(u.ledger, c, w)
    ensures AllAllowed(u, Executing(c, w))
    ensures DoAll(u, Executing(c, w)).sent == u.sent
  {
    StartingStarts(u, c);
    var v := DoAll(u, Starting(c));
    var run := [Run(c)];
    forall i | 0 <= i < |u.runs| ensures Apart(u.runs[i], c) { assert Known(u.ledger, u.runs[i]); }
    One(v, Run(c));
    AllAllowedJoins(u, Starting(c), run);
    DoAllJoins(u, Starting(c), run);
    if c.HasKey() { NotSent(u, c.Key()); }
    OutcomesAllowed(DoAll(v, run), c, w);
    AllAllowedJoins(u, Starting(c) + run, Outcomes(c, w));
    DoAllJoins(u, Starting(c) + run, Outcomes(c, w));
  }

  lemma OutcomesAllowed(x: World, c: Command, w: Weather)
    requires c.HasKey() ==> forall i :: 0 <= i < |x.sent| ==> x.sent[i].0 != c.Key()
    ensures AllAllowed(x, Outcomes(c, w)) && DoAll(x, Outcomes(c, w)).sent == x.sent
  {
    One(x, Record(c.Key(), Outcome(c.asks, w.verdict)));
  }

  lemma PlanAllowed(u: World, answered: set<string>, c: Command, w: Weather)
    requires Good(u)
    ensures AllAllowed(u, Plan(u.ledger, answered, c, w))
  {
    if c.correlation in answered {
    } else if c.correlation != "" && c.correlation in u.ledger {
      if u.ledger[c.correlation].Some? {
        PublishingAllowed(u, c.correlation, u.ledger[c.correlation].value, w.sends);
      } else {
        NotSent(u, c.correlation);
        RecordAllowed(u, c.correlation, Body(Answer(c.correlation, LOST, w.now, false)), w.sends);
      }
    } else {
      if c.correlation != "" { NotSent(u, c.correlation); }
      if c.envelope.Some? {
        AnsweringAllowed(u, c, c.envelope.value, false, w);
      } else if c.HasKey() && c.Key() in u.ledger {
        var (verdict, replayed) := Replay(c.asks, u.ledger[c.Key()]);
        var first := if u.ledger[c.Key()].None? then [Record(c.Key(), Outcome(c.asks, LOST))] else [];
        One(u, Record(c.Key(), Outcome(c.asks, LOST)));
        if first != [] { NotSent(u, c.Key()); }
        AnsweringAllowed(DoAll(u, first), c, verdict, replayed, w);
        AllAllowedJoins(u, first, Answering(c, verdict, replayed, w));
      } else if w.expired {
        AnsweringAllowed(u, c, EXPIRED, false, w);
      } else if w.link.DownPastExpiry? {
        AnsweringAllowed(u, c, EXPIRED_DOWN, false, w);
      } else if w.link.Up? {
        ExecutingAllowed(u, c, w);
        AnsweringAllowed(DoAll(u, Executing(c, w)), c, w.verdict, false, w);
        AllAllowedJoins(u, Executing(c, w), Answering(c, w.verdict, false, w));
      }
    }
  }

  /** A key without a recorded entry was never answered. */
  lemma NotSent(u: World, key: string)
    requires Good(u) && (key !in u.ledger || u.ledger[key].None?)
    ensures forall i :: 0 <= i < |u.sent| ==> u.sent[i].0 != key
  {
    forall i | 0 <= i < |u.sent| ensures u.sent[i].0 != key { assert Holds(u.ledger, u.sent[i].0, u.sent[i].1); }
  }

  /** A delivery, cut short by a crash after any number of its steps, keeps
      what every run keeps. */
  lemma DeliveryKeepsGood(u: World, answered: set<string>, c: Command, w: Weather, n: nat)
    requires Good(u) && n <= |Plan(u.ledger, answered, c, w)|
    ensures Good(DoAll(u, Plan(u.ledger, answered, c, w)[..n]))
  {
    PlanAllowed(u, answered, c, w);
    PrefixGood(u, Plan(u.ledger, answered, c, w), n);
  }

  // ------------------------------------------------------ what is answered

  /** The entries an effect may record anew: none that stands is replaced. */
  ghost predicate Fresh(ledger: Ledger, e: Effect) {
    e.Record? ==> e.key !in ledger || ledger[e.key].None?
  }

  lemma {:induction false} FreshStays(u: World, es: seq<Effect>, key: string, entry: Entry)
    requires Holds(u.ledger, key, entry) && forall i :: 0 <= i < |es| ==> Fresh(u.ledger, es[i])
    ensures Holds(DoAll(u, es).ledger, key, entry)
  {
    if es != [] {
      var front := es[..|es| - 1];
      assert forall i :: 0 <= i < |front| ==> front[i] == es[i];
      FreshStays(u, front, key, entry);
      assert Fresh(u.ledger, es[|es| - 1]);
    }
  }

  lemma {:induction false} PublishingOnly(correlation: string, entry: Entry, times: nat)
    ensures |Publishing(correlation, entry, times)| == times
    ensures forall i :: 0 <= i < times ==> Publishing(correlation, entry, times)[i] == Publish(correlation, entry)
  {
    if times > 0 { PublishingOnly(correlation, entry, times - 1); }
  }

  lemma PlanFresh(ledger: Ledger, answered: set<string>, c: Command, w: Weather)
    ensures forall i :: 0 <= i < |Plan(ledger, answered, c, w)| ==> Fresh(ledger, Plan(ledger, answered, c, w)[i])
  {
    forall v: Verdict, replayed | c.correlation == "" || c.correlation !in ledger
      ensures forall i :: 0 <= i < |Answering(c, v, replayed, w)| ==> Fresh(ledger, Answering(c, v, replayed, w)[i])
    {
      PublishingOnly(c.correlation, Body(Answer(c.correlation, v, w.now, replayed)), w.sends);
    }
    if c.correlation in ledger {
      var recorded := ledger[c.correlation];
      PublishingOnly(c.correlation, recorded.GetOr(Body(Answer(c.correlation, LOST, w.now, false))), w.sends);
    }
  }

  /** Once recorded, an entry never changes: no delivery replaces it. */
  lemma RecordedStays(u: World, answered: set<string>, c: Command, w: Weather, n: nat, key: string, entry: Entry)
    requires Holds(u.ledger, key, entry) && n <= |Plan(u.ledger, answered, c, w)|
    ensures Holds(DoAll(u, Plan(u.ledger, answered, c, w)[..n]).ledger, key, entry)
  {
    PlanFresh(u.ledger, answered, c, w);
    FreshStays(u, Plan(u.ledger, answered, c, w)[..n], key, entry);
  }

  /** A delivery runs the handler exactly when nothing is known of the command
      or of its operation, and at most once; it is then started before, under
      every key it has. */
  lemma RunsExactly(ledger: Ledger, answered: set<string>, c: Command, w: Weather)
    ensures (exists i :: 0 <= i < |Plan(ledger, answered, c, w)| && Plan(ledger, answered, c, w)[i].Run?)
      <==> c.correlation !in answered && Runs(ledger, c, w)
    ensures forall i :: 0 <= i < |Plan(ledger, answered, c, w)| && Plan(ledger, answered, c, w)[i].Run? ==>
      Plan(ledger, answered, c, w)[i] == Run(c) && Plan(ledger, answered, c, w)[..i] == Starting(c)
  {
    var plan := Plan(ledger, answered, c, w);
    forall v: Verdict, replayed, i | 0 <= i < |Answering(c, v, replayed, w)|
      ensures !Answering(c, v, replayed, w)[i].Run?
    {
      PublishingOnly(c.correlation, Body(Answer(c.correlation, v, w.now, replayed)), w.sends);
    }
    if c.correlation !in answered && Runs(ledger, c, w) {
      var i := |Starting(c)|;
      assert plan[i] == Run(c);
      assert plan[..i] == Starting(c);
    } else if c.correlation in ledger {
      var lost := Body(Answer(c.correlation, LOST, w.now, false));
      PublishingOnly(c.correlation, ledger[c.correlation].GetOr(lost), w.sends);
    }
  }

  lemma {:induction false} PublishingSends(u: World, correlation: string, entry: Entry, times: nat)
    ensures var v := DoAll(u, Publishing(correlation, entry, times));
      v == u.(sent := v.sent) && |v.sent| == |u.sent| + times
    ensures forall i :: |u.sent| <= i < |u.sent| + times ==>
      DoAll(u, Publishing(correlation, entry, times)).sent[i] == (correlation, entry)
  {
    if times > 0 {
      PublishingSends(u, correlation, entry, times - 1);
      assert Publishing(correlation, entry, times)[..times - 1 + |Publishing(correlation, entry, times)| - times]
        == Publishing(correlation, entry, times - 1);
    }
  }

  lemma AnsweringSends(u: World, c: Command, verdict: Verdict, replayed: bool, w: Weather)
    requires c.correlation != ""
    ensures var entry := Body(Answer(c.correlation, verdict, w.now, replayed));
      var v := DoAll(u, Answering(c, verdict, replayed, w));
      && v.ledger == u.ledger[c.correlation := Some(entry)] && v.runs == u.runs
      && v.records == u.records + [(c.correlation, entry)]
      && |v.sent| == |u.sent| + w.sends
      && (forall i :: |u.sent| <= i < |v.sent| ==> v.sent[i] == (c.correlation, entry))
  {
    var entry := Body(Answer(c.correlation, verdict, w.now, replayed));
    One(u, Record(c.correlation, entry));
    DoAllJoins(u, [Record(c.correlation, entry)], Publishing(c.correlation, entry, w.sends));
    PublishingSends(Do(u, Record(c.correlation, entry)), c.correlation, entry, w.sends);
  }

  /** The command was not run, and this is its answer: under its correlation id
      in the ledger, and in everything that was sent since. */
  ghost predicate OnlyAnswered(u: World, v: World, c: Command, w: Weather, verdict: Verdict) {
    var entry := Body(Answer(c.correlation, verdict, w.now, false));
    && v.runs == u.runs && v.ledger == u.ledger[c.correlation := Some(entry)]
    && |v.sent| == |u.sent| + w.sends
    && forall i :: |u.sent| <= i < |v.sent| ==> v.sent[i] == (c.correlation, entry)
  }

  /** An unknown command whose envelope is invalid is refused as that says. */
  lemma InvalidAnswered(u: World, answered: set<string>, c: Command, w: Weather)
    requires c.correlation != "" && c.correlation !in answered && c.correlation !in u.ledger && c.envelope.Some?
    ensures OnlyAnswered(u, DoAll(u, Plan(u.ledger, answered, c, w)), c, w, c.envelope.value)
  {
    AnsweringSends(u, c, c.envelope.value, false, w);
  }

  /** An unknown command that has expired is answered 498, and so is one whose
      link is down until it has. */
  lemma ExpiredAnswered(u: World, answered: set<string>, c: Command, w: Weather)
    requires c.correlation != "" && c.correlation !in answered && c.correlation !in u.ledger && c.envelope.None?
    requires c.operation != "" ==> OperationKey(c.actor, c.operation) !in u.ledger
    requires w.expired || w.link.DownPastExpiry?
    ensures OnlyAnswered(u, DoAll(u, Plan(u.ledger, answered, c, w)), c, w,
      Verdict(498, if w.expired then "expired before it was executed"
                   else "expired while the broker link was down; not executed", ""))
  {
    AnsweringSends(u, c, if w.expired then EXPIRED else EXPIRED_DOWN, false, w);
  }

  /** A command that the ledger knows is answered as it was, or with 504 when it
      was started and has no answer; it is not run. */
  lemma KnownAnswered(u: World, answered: set<string>, c: Command, w: Weather)
    requires c.correlation != "" && c.correlation !in answered && c.correlation in u.ledger
    ensures var v := DoAll(u, Plan(u.ledger, answered, c, w));
      && v.runs == u.runs && |v.sent| == |u.sent| + w.sends
      && c.correlation in v.ledger && v.ledger[c.correlation].Some?
      && (u.ledger[c.correlation].Some? ==> v.ledger == u.ledger)
      && (u.ledger[c.correlation].None? ==>
            v.ledger[c.correlation].value.Body? && v.ledger[c.correlation].value.answer.verdict.code == 504)
      && (forall i :: |u.sent| <= i < |v.sent| ==> v.sent[i] == (c.correlation, v.ledger[c.correlation].value))
  {
    var recorded := u.ledger[c.correlation];
    if recorded.Some? {
      PublishingSends(u, c.correlation, recorded.value, w.sends);
    } else {
      AnsweringSends(u, c, LOST, false, w);
    }
  }

  /** One that is run is answered with what its handler answered. */
  lemma RunAnswered(u: World, answered: set<string>, c: Command, w: Weather)
    requires c.correlation != "" && c.correlation !in answered && Runs(u.ledger, c, w)
    ensures var v := DoAll(u, Plan(u.ledger, answered, c, w));
      var entry := Body(Answer(c.correlation, w.verdict, w.now, false));
      && v.runs == u.runs + [c] && Holds(v.ledger, c.correlation, entry) && |v.sent| == |u.sent| + w.sends
      && forall i :: |u.sent| <= i < |v.sent| ==> v.sent[i] == (c.correlation, entry)
  {
    Executed(u, c, w);
    DoAllJoins(u, Executing(c, w), Answering(c, w.verdict, false, w));
    AnsweringSends(DoAll(u, Executing(c, w)), c, w.verdict, false, w);
  }

  /** Nothing is done for a command that was answered already, or when the
      service stops before it could run. */
  lemma NothingDone(ledger: Ledger, answered: set<string>, c: Command, w: Weather)
    ensures c.correlation in answered ==> Plan(ledger, answered, c, w) == []
    ensures c.correlation !in ledger && c.envelope.None? && !w.expired && w.link.ServiceStops? ==>
      (c.operation != "" ==> OperationKey(c.actor, c.operation) !in ledger) ==> Plan(ledger, answered, c, w) == []
  {
  }

  /** A repeat of an operation whose outcome is recorded is not run: it is
      answered with exactly that outcome when it asks for the same, and with
      409 when it does not; the record stands. */
  lemma RepeatAnswered(u: World, answered: set<string>, c: Command, w: Weather, asks: string, verdict: Verdict)
    requires c.correlation != "" && c.correlation !in answered && c.correlation !in u.ledger && c.HasKey()
    requires Holds(u.ledger, c.Key(), Outcome(asks, verdict))
    ensures var v := DoAll(u, Plan(u.ledger, answered, c, w));
      var entry := Body(Answer(c.correlation, if asks == c.asks then verdict else CONFLICT, w.now, asks == c.asks));
      && v.runs == u.runs
      && Holds(v.ledger, c.correlation, entry) && Holds(v.ledger, c.Key(), Outcome(asks, verdict))
      && (asks != c.asks ==> entry.answer.verdict.code == 409)
      && (forall i :: |u.sent| <= i < |v.sent| ==> v.sent[i] == (c.correlation, entry))
  {
    AnsweringSends(u, c, if asks == c.asks then verdict else CONFLICT, asks == c.asks, w);
    assert [] + Answering(c, if asks == c.asks then verdict else CONFLICT, asks == c.asks, w)
      == Answering(c, if asks == c.asks then verdict else CONFLICT, asks == c.asks, w);
  }

  /** A repeat of an operation that was started and never finished is not run
      either: its outcome is recorded as unknown, for this and every repeat
      that asks for what this one does. */
  lemma LostAnswered(u: World, answered: set<string>, c: Command, w: Weather)
    requires c.correlation != "" && c.correlation !in answered && c.correlation !in u.ledger && c.HasKey()
    requires c.Key() in u.ledger && u.ledger[c.Key()].None?
    ensures var v := DoAll(u, Plan(u.ledger, answered, c, w));
      && v.runs == u.runs
      && Holds(v.ledger, c.Key(), Outcome(c.asks, LOST))
      && Holds(v.ledger, c.correlation, Body(Answer(c.correlation, LOST, w.now, true))) && LOST.code == 504
  {
    var e := Record(c.Key(), Outcome(c.asks, LOST));
    One(u, e);
    DoAllJoins(u, [e], Answering(c, LOST, true, w));
    AnsweringSends(Do(u, e), c, LOST, true, w);
  }

  // --------------------------------------- one key space for two purposes

  /** The command runs under a correlation id that is its own operation's key. */
  predicate Collides(ledger: Ledger, answered: set<string>, c: Command, w: Weather) {
    c.correlation !in answered && Runs(ledger, c, w) && c.HasKey() && c.correlation == c.Key()
  }

  /** Every recorded key was recorded once, and holds an entry. */
  ghost predicate OnceEach(u: World) {
    && (forall i :: 0 <= i < |u.records| ==> u.records[i].0 in u.ledger && u.ledger[u.records[i].0].Some?)
    && Distinct(u.records)
  }

  ghost predicate Distinct(records: seq<(string, Entry)>) {
    forall i, j :: 0 <= i < j < |records| ==> records[i].0 != records[j].0
  }

  /** After an execution the operation's outcome is recorded, and is what its
      repeats are answered with, exactly unless the command's correlation id
      is its operation's own key: then the answer replaces the outcome. */
  lemma OutcomeRecordedExactly(u: World, answered: set<string>, c: Command, w: Weather)
    requires c.correlation !in answered && c.HasKey() && Runs(u.ledger, c, w)
    ensures var v := DoAll(u, Plan(u.ledger, answered, c, w));
      && v.runs == u.runs + [c]
      && (Holds(v.ledger, c.Key(), Outcome(c.asks, w.verdict)) <==> c.correlation != c.Key())
      && (c.correlation != "" ==> Holds(v.ledger, c.correlation, Body(Answer(c.correlation, w.verdict, w.now, false))))
  {
    var x := DoAll(u, Executing(c, w));
    Executed(u, c, w);
    DoAllJoins(u, Executing(c, w), Answering(c, w.verdict, false, w));
    if c.correlation != "" {
      AnsweringSends(x, c, w.verdict, false, w);
    } else {
      assert Executing(c, w) + [] == Executing(c, w);
      assert c.Key()[0] == 'o';
    }
  }

  lemma Executed(u: World, c: Command, w: Weather)
    requires Runs(u.ledger, c, w)
    ensures var x := DoAll(u, Executing(c, w));
      && x.runs == u.runs + [c] && x.sent == u.sent
      && (c.HasKey() ==> Holds(x.ledger, c.Key(), Outcome(c.asks, w.verdict)))
      && x.records == u.records + (if c.HasKey() then [(c.Key(), Outcome(c.asks, w.verdict))] else [])
      && (forall k :: k in u.ledger ==> k in x.ledger && (u.ledger[k].Some? ==> x.ledger[k].Some?))
  {
    StartingStarts(u, c);
    var v := DoAll(u, Starting(c));
    var outcome := if c.HasKey() then [Record(c.Key(), Outcome(c.asks, w.verdict))] else [];
    One(v, Run(c));
    DoAllJoins(u, Starting(c), [Run(c)]);
    var x := DoAll(v, [Run(c)]);
    One(x, Record(c.Key(), Outcome(c.asks, w.verdict)));
    DoAllJoins(u, Starting(c) + [Run(c)], outcome);
  }

  /** No key is recorded twice by a complete delivery exactly unless the
      command collides with its own operation. */
  lemma RecordedTwiceExactly(u: World, answered: set<string>, c: Command, w: Weather)
    requires OnceEach(u)
    ensures OnceEach(DoAll(u, Plan(u.ledger, answered, c, w))) <==> !Collides(u.ledger, answered, c, w)
  {
    if c.correlation in answered {
    } else if c.correlation != "" && c.correlation in u.ledger {
      if u.ledger[c.correlation].Some? {
        PublishingSends(u, c.correlation, u.ledger[c.correlation].value, w.sends);
      } else {
        RecordOnce(u, c, LOST, false, w);
      }
    } else if c.envelope.Some? {
      RecordOnce(u, c, c.envelope.value, false, w);
    } else if c.HasKey() && c.Key() in u.ledger {
      RepeatRecordsOnce(u, c, w);
    } else if w.expired {
      RecordOnce(u, c, EXPIRED, false, w);
    } else if w.link.DownPastExpiry? {
      RecordOnce(u, c, EXPIRED_DOWN, false, w);
    } else if w.link.Up? {
      RunRecords(u, c, w);
    }
  }

  lemma RepeatRecordsOnce(u: World, c: Command, w: Weather)
    requires OnceEach(u) && (c.correlation == "" || c.correlation !in u.ledger) && c.HasKey() && c.Key() in u.ledger
    ensures var (verdict, replayed) := Replay(c.asks, u.ledger[c.Key()]);
      var first := if u.ledger[c.Key()].None? then [Record(c.Key(), Outcome(c.asks, LOST))] else [];
      OnceEach(DoAll(u, first + Answering(c, verdict, replayed, w)))
  {
    var (verdict, replayed) := Replay(c.asks, u.ledger[c.Key()]);
    var e := Record(c.Key(), Outcome(c.asks, LOST));
    var first := if u.ledger[c.Key()].None? then [e] else [];
    One(u, e);
    DoAllJoins(u, first, Answering(c, verdict, replayed, w));
    RecordOnce(DoAll(u, first), c, verdict, replayed, w);
  }

  lemma RunRecords(u: World, c: Command, w: Weather)
    requires OnceEach(u) && Runs(u.ledger, c, w)
    ensures OnceEach(DoAll(u, Executing(c, w) + Answering(c, w.verdict, false, w)))
      <==> !(c.HasKey() && c.correlation == c.Key())
  {
    Executed(u, c, w);
    var x := DoAll(u, Executing(c, w));
    DoAllJoins(u, Executing(c, w), Answering(c, w.verdict, false, w));
    ExecutedOnce(u, c, w, x);
    if c.correlation == "" {
      assert c.Key()[0] == 'o';
    } else {
      AnsweringSends(x, c, w.verdict, false, w);
      var entry := Body(Answer(c.correlation, w.verdict, w.now, false));
      AppendRecord(x, DoAll(x, Answering(c, w.verdict, false, w)), c.correlation, entry);
      if c.HasKey() { assert x.records[|u.records|].0 == c.Key(); }
    }
  }

  lemma ExecutedOnce(u: World, c: Command, w: Weather, x: World)
    requires OnceEach(u) && Runs(u.ledger, c, w)
    requires x.records == u.records + (if c.HasKey() then [(c.Key(), Outcome(c.asks, w.verdict))] else [])
    requires c.HasKey() ==> Holds(x.ledger, c.Key(), Outcome(c.asks, w.verdict))
    requires forall k :: k in u.ledger ==> k in x.ledger && (u.ledger[k].Some? ==> x.ledger[k].Some?)
    ensures OnceEach(x)
  {
  }

  /** One more record keeps keys recorded once exactly when its key is new. */
  lemma AppendRecord(x: World, v: World, key: string, entry: Entry)
    requires OnceEach(x) && v.records == x.records + [(key, entry)] && v.ledger == x.ledger[key := Some(entry)]
    ensures OnceEach(v) <==> forall i :: 0 <= i < |x.records| ==> x.records[i].0 != key
  {
    if i :| 0 <= i < |x.records| && x.records[i].0 == key {
      assert v.records[i].0 == v.records[|x.records|].0;
    }
  }

  lemma RecordOnce(u: World, c: Command, verdict: Verdict, replayed: bool, w: Weather)
    requires OnceEach(u) && (c.correlation == "" || c.correlation !in u.ledger || u.ledger[c.correlation].None?)
    ensures OnceEach(DoAll(u, Answering(c, verdict, replayed, w)))
  {
    if c.correlation != "" { AnsweringSends(u, c, verdict, replayed, w); }
  }

  /** What the collision costs: whatever the operation answered, a repeat of
      it that asks for the same is answered 409. */
  lemma CollisionRefusesTheRepeat(u: World, answered: set<string>, first: Command, w: Weather, again: Command,
                                  w': Weather)
    requires Collides(u.ledger, answered, first, w)
    requires again.HasKey() && again.Key() == first.Key() && again.asks == first.asks
    requires again.correlation !in {"", first.correlation}
    requires again.correlation !in u.ledger && again.correlation !in answered
    ensures var v := DoAll(u, Plan(u.ledger, answered, first, w));
      Holds(DoAll(v, Plan(v.ledger, answered, again, w')).ledger, again.correlation,
            Body(Answer(again.correlation, CONFLICT, w'.now, false)))
  {
    OutcomeRecordedExactly(u, answered, first, w);
    var x, v := DoAll(u, Executing(first, w)), DoAll(u, Plan(u.ledger, answered, first, w));
    OnlyOwnKeys(u, first, w);
    DoAllJoins(u, Executing(first, w), Answering(first, w.verdict, false, w));
    assert first.correlation[0] == 'o';
    AnsweringSends(x, first, w.verdict, false, w);
    AnsweringSends(v, again, CONFLICT, false, w');
    assert [] + Answering(again, CONFLICT, false, w') == Answering(again, CONFLICT, false, w');
  }

  /** Nothing keeps a sender from choosing such a correlation id. */
  lemma CollisionPossible(actor: string, operation: string, asks: string, w: Weather)
    requires operation != "" && !w.expired && w.link.Up?
    ensures Collides(map[], {}, Command(OperationKey(actor, operation), actor, operation, asks, None), w)
  {
    assert OperationKey(actor, operation)[0] == 'o';
  }

  lemma OnlyOwnKeys(u: World, c: Command, w: Weather)
    requires Runs(u.ledger, c, w)
    ensures forall k :: k in DoAll(u, Executing(c, w)).ledger ==>
      k in u.ledger || k == c.correlation || (c.HasKey() && k == c.Key())
  {
    var a := if c.correlation != "" then [Start(c.correlation)] else [];
    var b := if c.HasKey() then [Start(c.Key())] else [];
    One(u, Start(c.correlation));
    DoAllJoins(u, a, b);
    One(DoAll(u, a), Start(c.Key()));
    var v := DoAll(u, Starting(c));
    One(v, Run(c));
    DoAllJoins(u, Starting(c), [Run(c)]);
    One(DoAll(v, [Run(c)]), Record(c.Key(), Outcome(c.asks, w.verdict)));
    DoAllJoins(u, Starting(c) + [Run(c)], if c.HasKey() then [Record(c.Key(), Outcome(c.asks, w.verdict))] else []);
  }
}
