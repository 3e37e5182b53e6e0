/** Runs of deliveries, and the one key space they share: a ledger key is a
    command's correlation id or an operation's key, and nothing keeps a sender
    from choosing another's operation key as a correlation id. */
module OperationKeys {
  import opened Options
  import opened CommandLedger

  /** A command delivered to an executor that has seen some answers, cut short
      after so many durable steps. */
  datatype Delivery = Delivery(answered: set<string>, command: Command, weather: Weather, steps: nat)

  function Planned(u: World, d: Delivery): seq<Effect> { Plan(u.ledger, d.answered, d.command, d.weather) }

  /** What a delivery does before it is cut short. */
  function Steps(u: World, d: Delivery): seq<Effect> { Planned(u, d)[..Min(d.steps, |Planned(u, d)|)] }

  /** What a run of deliveries comes to, from an empty ledger. */
  function After(run: seq<Delivery>): World {
    if run == [] then World(map[], [], [], [])
    else var u := After(run[..|run| - 1]); DoAll(u, Steps(u, run[|run| - 1]))
  }

  /** A command of the operation with this key. */
  predicate Own(c: Command, k: string) { c.HasKey() && c.Key() == k }

  /** An effect under a command's correlation id: its answer is recorded or
      published under it, or a command that is not the operation's own starts
      under it. */
  predicate UsesKey(c: Command, k: string, e: Effect) {
    match e
    case Start(key) => key == k && !Own(c, k)
    case Run(_) => false
    case Record(key, entry) => key == k && entry.Body?
    case Publish(correlation, _) => correlation == k
  }

  predicate Uses(u: World, d: Delivery, k: string) {
    exists i :: 0 <= i < |Steps(u, d)| && UsesKey(d.command, k, Steps(u, d)[i])
  }

  /** Some command of the run used the key as its correlation id. */
  predicate Used(run: seq<Delivery>, k: string) {
    run != [] && (Used(run[..|run| - 1], k) || Uses(After(run[..|run| - 1]), run[|run| - 1], k))
  }

  predicate OwnStarts(u: World, d: Delivery, k: string) { Own(d.command, k) && Start(k) in Steps(u, d) }

  /** Some command of the operation was started under its key. */
  predicate OwnStarted(run: seq<Delivery>, k: string) {
    run != [] && (OwnStarted(run[..|run| - 1], k) || OwnStarts(After(run[..|run| - 1]), run[|run| - 1], k))
  }

  /** An outcome of the operation: what a command of it asked for, and what its
      handler answered or that it was lost. */
  predicate OwnOutcome(run: seq<Delivery>, k: string, asks: string, verdict: Verdict) {
    exists i :: 0 <= i < |run| && Own(run[i].command, k) && run[i].command.asks == asks
      && (verdict == LOST || verdict == run[i].weather.verdict)
  }

  /** The key is the operation's alone: it was started by a command of the
      operation before anything stood under it, holds at most an outcome of the
      operation, and nothing was published under it. */
  ghost predicate Kept(run: seq<Delivery>, k: string) {
    var u := After(run);
    && (forall i :: 0 <= i < |u.sent| ==> u.sent[i].0 != k)
    && (k in u.ledger ==> OwnStarted(run, k))
    && (k in u.ledger && u.ledger[k].Some? ==>
          u.ledger[k].value.Outcome? && OwnOutcome(run, k, u.ledger[k].value.asks, u.ledger[k].value.verdict))
  }

  // ------------------------------------------------------ effects of a plan

  /** What an effect of a command's plan can be. */
  predicate Shaped(ledger: Ledger, c: Command, w: Weather, e: Effect) {
    match e
    case Start(key) => key !in ledger && (key == c.correlation || Own(c, key))
    case Run(_) => true
    case Record(key, Body(_)) => key == c.correlation
    case Record(key, Outcome(asks, verdict)) =>
      Own(c, key) && asks == c.asks && (verdict == LOST || verdict == w.verdict)
    case Publish(correlation, _) => correlation == c.correlation
  }

  /** A command's effects in order: only an outcome comes before another record. */
  ghost predicate RecordsApart(es: seq<Effect>) {
    forall i, j :: 0 <= i < j < |es| && es[i].Record? && es[j].Record? ==> es[i].entry.Outcome? && es[j].entry.Body?
  }

  ghost predicate AllShaped(ledger: Ledger, c: Command, w: Weather, es: seq<Effect>) {
    forall i :: 0 <= i < |es| ==> Shaped(ledger, c, w, es[i])
  }

  lemma AnsweringShaped(ledger: Ledger, c: Command, verdict: Verdict, replayed: bool, w: Weather)
    ensures AllShaped(ledger, c, w, Answering(c, verdict, replayed, w))
    ensures var es := Answering(c, verdict, replayed, w);
      forall i :: 0 <= i < |es| && es[i].Record? ==> i == 0 && es[i].entry.Body?
  {
    PublishingOnly(c.correlation, Body(Answer(c.correlation, verdict, w.now, replayed)), w.sends);
  }

  /** An effect before an answer: not the record of another answer. */
  ghost predicate NoBody(es: seq<Effect>) {
    forall i :: 0 <= i < |es| && es[i].Record? ==> es[i].entry.Outcome? && i == |es| - 1
  }

  lemma ThenAnswering(ledger: Ledger, es: seq<Effect>, c: Command, verdict: Verdict, replayed: bool, w: Weather)
    requires AllShaped(ledger, c, w, es) && NoBody(es)
    ensures AllShaped(ledger, c, w, es + Answering(c, verdict, replayed, w))
    ensures RecordsApart(es + Answering(c, verdict, replayed, w))
  {
    AnsweringShaped(ledger, c, verdict, replayed, w);
    var rest := Answering(c, verdict, replayed, w);
    var all := es + rest;
    forall i | 0 <= i < |all| ensures Shaped(ledger, c, w, all[i]) {
      if i < |es| { assert Shaped(ledger, c, w, es[i]); } else { assert Shaped(ledger, c, w, rest[i - |es|]); }
    }
    assert forall i :: |es| <= i < |all| ==> all[i] == rest[i - |es|];
  }

  lemma ExecutingShaped(ledger: Ledger, c: Command, w: Weather)
    requires Runs(ledger, c, w)
    ensures AllShaped(ledger, c, w, Executing(c, w)) && NoBody(Executing(c, w))
  {
  }

  lemma PlanShaped(ledger: Ledger, answered: set<string>, c: Command, w: Weather)
    ensures AllShaped(ledger, c, w, Plan(ledger, answered, c, w))
    ensures RecordsApart(Plan(ledger, answered, c, w))
  {
    if c.correlation in answered {
    } else if c.correlation != "" && c.correlation in ledger {
      AgainShaped(ledger, c, ledger[c.correlation], w);
    } else if c.envelope.Some? {
      NothingThenAnswering(ledger, c, c.envelope.value, w);
    } else if c.HasKey() && c.Key() in ledger {
      var (verdict, replayed) := Replay(c.asks, ledger[c.Key()]);
      ThenAnswering(ledger, if ledger[c.Key()].None? then [Record(c.Key(), Outcome(c.asks, LOST))] else [], c, verdict,
                    replayed, w);
    } else if w.expired {
      NothingThenAnswering(ledger, c, EXPIRED, w);
    } else if w.link.DownPastExpiry? {
      NothingThenAnswering(ledger, c, EXPIRED_DOWN, w);
    } else if w.link.Up? {
      ExecutingShaped(ledger, c, w);
      ThenAnswering(ledger, Executing(c, w), c, w.verdict, false, w);
    }
  }

  lemma NothingThenAnswering(ledger: Ledger, c: Command, verdict: Verdict, w: Weather)
    ensures AllShaped(ledger, c, w, Answering(c, verdict, false, w)) && RecordsApart(Answering(c, verdict, false, w))
  {
    ThenAnswering(ledger, [], c, verdict, false, w);
    assert [] + Answering(c, verdict, false, w) == Answering(c, verdict, false, w);
  }

  lemma AgainShaped(ledger: Ledger, c: Command, recorded: Option<Entry>, w: Weather)
    ensures AllShaped(ledger, c, w, AnsweringAgain(c, recorded, w)) && RecordsApart(AnsweringAgain(c, recorded, w))
  {
    PublishingOnly(c.correlation, recorded.GetOr(Body(Answer(c.correlation, LOST, w.now, false))), w.sends);
  }

  /** An outcome is recorded under a new key only after the key was started. */
  lemma StartedFirst(ledger: Ledger, answered: set<string>, c: Command, w: Weather, n: nat, k: string, i: nat)
    requires n <= |Plan(ledger, answered, c, w)| && k !in ledger
    requires i < n && Plan(ledger, answered, c, w)[i].Record? && Plan(ledger, answered, c, w)[i].key == k
    requires Plan(ledger, answered, c, w)[i].entry.Outcome?
    ensures Own(c, k) && Start(k) in Plan(ledger, answered, c, w)[..n]
  {
    var plan := Plan(ledger, answered, c, w);
    PlanShaped(ledger, answered, c, w);
    assert Shaped(ledger, c, w, plan[i]);
    forall v: Verdict, replayed: bool | i < |Answering(c, v, replayed, w)|
      ensures plan[i] != Answering(c, v, replayed, w)[i]
    {
      AnsweringShaped(ledger, c, v, replayed, w);
    }
    if c.correlation != "" && c.correlation in ledger {
      var lost := Body(Answer(c.correlation, LOST, w.now, false));
      PublishingOnly(c.correlation, ledger[c.correlation].GetOr(lost), w.sends);
    }
    var s := |Starting(c)|;
    assert plan[..s] == Starting(c);
    assert plan[s - 1] == Start(k);
    assert plan[..n][s - 1] == Start(k);
  }

  // ---------------------------------------------------- effects on one key

  /** Effects add to what was sent and to the ledger's keys. */
  lemma EffectsAdd(u: World, es: seq<Effect>)
    ensures u.sent <= DoAll(u, es).sent && u.ledger.Keys <= DoAll(u, es).ledger.Keys
    ensures forall i :: 0 <= i < |es| && es[i].Start? ==> es[i].key in DoAll(u, es).ledger
    ensures forall i :: 0 <= i < |es| && es[i].Publish? ==> (es[i].correlation, es[i].entry) in DoAll(u, es).sent
  {
    KeysGrow(u, es);
    SentGrows(u, es);
  }

  lemma {:induction false} KeysGrow(u: World, es: seq<Effect>)
    ensures forall k :: k in u.ledger ==> k in DoAll(u, es).ledger
    ensures forall i :: 0 <= i < |es| && es[i].Start? ==> es[i].key in DoAll(u, es).ledger
  {
    if es != [] { KeysGrow(u, es[..|es| - 1]); }
  }

  lemma {:induction false} SentGrows(u: World, es: seq<Effect>)
    ensures u.sent <= DoAll(u, es).sent
    ensures forall i :: 0 <= i < |es| && es[i].Publish? ==> (es[i].correlation, es[i].entry) in DoAll(u, es).sent
  {
    if es != [] {
      var front, last := es[..|es| - 1], es[|es| - 1];
      SentGrows(u, front);
      var was, now := DoAll(u, front).sent, DoAll(u, es).sent;
      assert now == was || now == was + [(last.correlation, last.entry)];
      forall i | 0 <= i < |es| && es[i].Publish? ensures (es[i].correlation, es[i].entry) in now {
        if i < |front| { assert front[i] == es[i]; } else { assert now[|was|] == (last.correlation, last.entry); }
      }
    }
  }

  /** Effects that do not use a key as a correlation id leave what stands under
      it, or are its own operation's start and outcome. */
  lemma {:induction false} CleanEffects(u: World, ledger: Ledger, c: Command, w: Weather, es: seq<Effect>, k: string)
    requires AllShaped(ledger, c, w, es)
    requires forall i :: 0 <= i < |es| ==> !UsesKey(c, k, es[i])
    ensures var v := DoAll(u, es);
      && (forall i :: |u.sent| <= i < |v.sent| ==> v.sent[i].0 != k)
      && (|| (k !in v.ledger && k !in u.ledger)
          || (k in v.ledger && k in u.ledger && v.ledger[k] == u.ledger[k])
          || (k in v.ledger && Own(c, k) && v.ledger[k].None? && Start(k) in es)
          || (k in v.ledger && v.ledger[k].Some? && Record(k, v.ledger[k].value) in es && v.ledger[k].value.Outcome?))
  {
    if es != [] {
      var front, last := es[..|es| - 1], es[|es| - 1];
      CleanEffects(u, ledger, c, w, front, k);
      assert Shaped(ledger, c, w, last) && !UsesKey(c, k, last);
      assert forall e :: e in front ==> e in es;
    }
  }

  /** What stands under a key was there, or was recorded. */
  lemma {:induction false} WhereFrom(u: World, es: seq<Effect>, k: string, entry: Entry)
    requires Holds(DoAll(u, es).ledger, k, entry)
    ensures Holds(u.ledger, k, entry) || Record(k, entry) in es
  {
    if es != [] {
      var front, last := es[..|es| - 1], es[|es| - 1];
      if Holds(DoAll(u, front).ledger, k, entry) {
        WhereFrom(u, front, k, entry);
        assert Record(k, entry) in front ==> Record(k, entry) in es;
      }
    }
  }

  lemma {:induction false} NoRecordStays(u: World, es: seq<Effect>, k: string, entry: Entry)
    requires Holds(u.ledger, k, entry) && forall i :: 0 <= i < |es| && es[i].Record? ==> es[i].key != k
    ensures Holds(DoAll(u, es).ledger, k, entry)
  {
    if es != [] { NoRecordStays(u, es[..|es| - 1], k, entry); }
  }

  /** Within one delivery an entry that was recorded stays, but for an outcome
      that the command's own answer replaces under its correlation id. */
  lemma StaysWithin(u: World, d: Delivery, n: nat, m: nat, k: string, entry: Entry)
    requires n <= m <= |Planned(u, d)| && Holds(DoAll(u, Planned(u, d)[..n]).ledger, k, entry)
    requires entry.Body? || forall i :: 0 <= i < m ==> !UsesKey(d.command, k, Planned(u, d)[i])
    ensures Holds(DoAll(u, Planned(u, d)[..m]).ledger, k, entry)
  {
    var plan := Planned(u, d);
    PlanShaped(u.ledger, d.answered, d.command, d.weather);
    PlanFresh(u.ledger, d.answered, d.command, d.weather);
    WhereFrom(u, plan[..n], k, entry);
    var rest := plan[n..m];
    forall i | 0 <= i < |rest| && rest[i].Record? ensures rest[i].key != k {
      assert Fresh(u.ledger, plan[n + i]) && rest[i] == plan[n + i];
      if !Holds(u.ledger, k, entry) {
        var j :| 0 <= j < n && plan[..n][j] == Record(k, entry);
        assert plan[j].entry.Outcome? && plan[n + i].entry.Body?;
      }
    }
    assert plan[..m] == plan[..n] + rest;
    DoAllJoins(u, plan[..n], rest);
    NoRecordStays(DoAll(u, plan[..n]), rest, k, entry);
  }

  // ------------------------------------------------------------------ runs

  lemma OneMore(run: seq<Delivery>, d: Delivery)
    ensures After(run + [d]) == DoAll(After(run), Steps(After(run), d))
    ensures forall k :: Used(run + [d], k) <==> Used(run, k) || Uses(After(run), d, k)
    ensures forall k :: OwnStarted(run + [d], k) <==> OwnStarted(run, k) || OwnStarts(After(run), d, k)
  {
    assert (run + [d])[..|run|] == run;
  }

  /** What was started or recorded is known. */
  lemma {:induction false} StartedIsKnown(run: seq<Delivery>, k: string)
    requires OwnStarted(run, k)
    ensures k in After(run).ledger
  {
    var front, d := run[..|run| - 1], run[|run| - 1];
    EffectsAdd(After(front), Steps(After(front), d));
    if OwnStarted(front, k) { StartedIsKnown(front, k); }
  }

  /** Only a command of the operation records an outcome under its key. */
  lemma {:induction false} OutcomesAreOwn(run: seq<Delivery>, k: string, asks: string, verdict: Verdict)
    requires Holds(After(run).ledger, k, Outcome(asks, verdict))
    ensures OwnOutcome(run, k, asks, verdict)
  {
    var front, d := run[..|run| - 1], run[|run| - 1];
    var u := After(front);
    WhereFrom(u, Steps(u, d), k, Outcome(asks, verdict));
    if Holds(u.ledger, k, Outcome(asks, verdict)) {
      OutcomesAreOwn(front, k, asks, verdict);
      var i :| 0 <= i < |front| && Own(front[i].command, k) && front[i].command.asks == asks
        && (verdict == LOST || verdict == front[i].weather.verdict);
      assert run[i] == front[i];
    } else {
      PlanShaped(u.ledger, d.answered, d.command, d.weather);
      var i :| 0 <= i < |Steps(u, d)| && Steps(u, d)[i] == Record(k, Outcome(asks, verdict));
      assert Shaped(u.ledger, d.command, d.weather, Planned(u, d)[i]);
      assert Own(run[|run| - 1].command, k);
    }
  }

  /** An answer recorded under a key stays, as does every entry of an operation
      whose key no command used as its correlation id: whatever a run had
      recorded after so many steps of a delivery stands when more steps and
      more deliveries have come. */
  lemma {:induction false} RecordedStaysInRuns(before: seq<Delivery>, d: Delivery, n: nat, rest: seq<Delivery>,
                                               k: string, entry: Entry)
    requires n <= d.steps && Holds(After(before + [d.(steps := n)]).ledger, k, entry)
    requires entry.Body? || !Used(before + [d] + rest, k)
    ensures Holds(After(before + [d] + rest).ledger, k, entry)
    decreases |rest|
  {
    if rest == [] {
      assert before + [d] + rest == before + [d];
      OneMore(before, d);
      OneMore(before, d.(steps := n));
      var u := After(before);
      var plan := Planned(u, d);
      var m := Min(d.steps, |plan|);
      if !entry.Body? {
        forall i | 0 <= i < m ensures !UsesKey(d.command, k, plan[i]) { assert Steps(u, d)[i] == plan[i]; }
      }
      StaysWithin(u, d, Min(n, |plan|), m, k, entry);
    } else {
      var front, last := rest[..|rest| - 1], rest[|rest| - 1];
      assert before + [d] + rest == (before + [d] + front) + [last];
      OneMore(before + [d] + front, last);
      RecordedStaysInRuns(before, d, n, front, k, entry);
      var u := After(before + [d] + front);
      RecordedStays(u, last.answered, last.command, last.weather, |Steps(u, last)|, k, entry);
    }
  }

  /** A delivery that does not use the key as a correlation id keeps it. */
  lemma CleanKeeps(run: seq<Delivery>, d: Delivery, k: string)
    requires Kept(run, k) && !Uses(After(run), d, k)
    ensures Kept(run + [d], k)
  {
    OneMore(run, d);
    var u, es := After(run), Steps(After(run), d);
    var plan, v := Planned(u, d), After(run + [d]);
    PlanShaped(u.ledger, d.answered, d.command, d.weather);
    CleanEffects(u, u.ledger, d.command, d.weather, es, k);
    EffectsAdd(u, es);
    forall i | 0 <= i < |v.sent| ensures v.sent[i].0 != k { assert i < |u.sent| ==> v.sent[i] == u.sent[i]; }
    if k in v.ledger && v.ledger[k].Some? {
      if k !in u.ledger {
        var i :| 0 <= i < |es| && es[i] == Record(k, v.ledger[k].value);
        StartedFirst(u.ledger, d.answered, d.command, d.weather, |es|, k, i);
      }
      OutcomesAreOwn(run + [d], k, v.ledger[k].value.asks, v.ledger[k].value.verdict);
    }
  }

  /** What breaks a key: something published under it, an answer recorded under
      it, or a start before its own operation's. */
  ghost predicate Broken(run: seq<Delivery>, k: string) {
    var u := After(run);
    || (exists i :: 0 <= i < |u.sent| && u.sent[i].0 == k)
    || (k in u.ledger && u.ledger[k].Some? && u.ledger[k].value.Body?)
    || (k in u.ledger && !OwnStarted(run, k))
  }

  /** An answer that a delivery recorded stands when it ends. */
  lemma AnswerStands(u: World, d: Delivery, i: nat, k: string, entry: Entry)
    requires i < |Steps(u, d)| && Steps(u, d)[i] == Record(k, entry) && entry.Body?
    ensures Holds(DoAll(u, Steps(u, d)).ledger, k, entry)
  {
    var plan, n := Planned(u, d), |Steps(u, d)|;
    assert plan[i] == Record(k, entry);
    assert plan[..i + 1][..i] == plan[..i];
    StaysWithin(u, d, i + 1, n, k, entry);
    assert plan[..n] == Steps(u, d);
  }

  /** A delivery that uses the key as a correlation id breaks it. */
  lemma UseBreaks(run: seq<Delivery>, d: Delivery, k: string)
    requires Uses(After(run), d, k)
    ensures Broken(run + [d], k)
  {
    OneMore(run, d);
    var u, es := After(run), Steps(After(run), d);
    var plan, v := Planned(u, d), After(run + [d]);
    PlanShaped(u.ledger, d.answered, d.command, d.weather);
    EffectsAdd(u, es);
    var i :| 0 <= i < |es| && UsesKey(d.command, k, es[i]);
    assert es[i] == plan[i] && Shaped(u.ledger, d.command, d.weather, plan[i]);
    match es[i]
    case Start(_) =>
      if OwnStarted(run, k) { StartedIsKnown(run, k); }
    case Record(_, entry) =>
      AnswerStands(u, d, i, k, entry);
    case Publish(_, entry) =>
      var j :| 0 <= j < |v.sent| && v.sent[j] == (k, entry);
    case Run(_) =>
  }

  /** A broken key stays broken. */
  lemma BrokenStays(run: seq<Delivery>, d: Delivery, k: string)
    requires Broken(run, k)
    ensures Broken(run + [d], k)
  {
    OneMore(run, d);
    var u, es := After(run), Steps(After(run), d);
    EffectsAdd(u, es);
    PlanShaped(u.ledger, d.answered, d.command, d.weather);
    var v := After(run + [d]);
    if i :| 0 <= i < |u.sent| && u.sent[i].0 == k {
      assert v.sent[i] == u.sent[i];
    } else if k in u.ledger && u.ledger[k].Some? && u.ledger[k].value.Body? {
      RecordedStays(u, d.answered, d.command, d.weather, |es|, k, u.ledger[k].value);
    } else {
      NoLateStart(u, d, k);
    }
  }

  lemma NoLateStart(u: World, d: Delivery, k: string)
    requires k in u.ledger
    ensures !OwnStarts(u, d, k)
  {
    PlanShaped(u.ledger, d.answered, d.command, d.weather);
    forall i | 0 <= i < |Steps(u, d)| ensures Steps(u, d)[i] != Start(k) {
      assert Shaped(u.ledger, d.command, d.weather, Planned(u, d)[i]);
    }
  }

  /** Over every run of deliveries, cut short anywhere: an operation's key is
      the operation's alone, holding at most its own outcome and never
      published, exactly when no command of the run used it as its correlation
      id. */
  lemma {:induction false} OwnKeyExactly(run: seq<Delivery>, k: string)
    ensures Kept(run, k) <==> !Used(run, k)
    ensures Used(run, k) ==> Broken(run, k)
  {
    if run != [] {
      var front, d := run[..|run| - 1], run[|run| - 1];
      assert front + [d] == run;
      OwnKeyExactly(front, k);
      if Used(front, k) {
        BrokenStays(front, d, k);
      } else if Uses(After(front), d, k) {
        UseBreaks(front, d, k);
      } else {
        CleanKeeps(front, d, k);
      }
    }
  }

  /** A repeat of an operation with a recorded outcome, anywhere later in a run
      that does not use its key as a correlation id, is not run, and is answered
      with exactly that outcome, or with 409 when it asks for something else. */
  lemma RepeatAnsweredInRuns(before: seq<Delivery>, d: Delivery, n: nat, rest: seq<Delivery>, answered: set<string>,
                             c: Command, w: Weather, asks: string, verdict: Verdict)
    requires c.HasKey() && !Used(before + [d] + rest, c.Key())
    requires n <= d.steps && Holds(After(before + [d.(steps := n)]).ledger, c.Key(), Outcome(asks, verdict))
    requires c.correlation != "" && c.correlation !in answered && c.correlation !in After(before + [d] + rest).ledger
    ensures var u := After(before + [d] + rest);
      var v := DoAll(u, Plan(u.ledger, answered, c, w));
      var entry := Body(Answer(c.correlation, if asks == c.asks then verdict else CONFLICT, w.now, asks == c.asks));
      && v.runs == u.runs
      && Holds(v.ledger, c.correlation, entry) && Holds(v.ledger, c.Key(), Outcome(asks, verdict))
      && (forall i :: |u.sent| <= i < |v.sent| ==> v.sent[i] == (c.correlation, entry))
  {
    RecordedStaysInRuns(before, d, n, rest, c.Key(), Outcome(asks, verdict));
    RepeatAnswered(After(before + [d] + rest), answered, c, w, asks, verdict);
  }

  /** Every run keeps what a delivery keeps: single runs, and answers that are
      the ledger's. */
  lemma {:induction false} RunKeepsGood(run: seq<Delivery>)
    ensures Good(After(run))
  {
    if run != [] {
      var front, d := run[..|run| - 1], run[|run| - 1];
      RunKeepsGood(front);
      DeliveryKeepsGood(After(front), d.answered, d.command, d.weather, |Steps(After(front), d)|);
    }
  }

  /** A used key is known to the ledger. */
  lemma {:induction false} UsedIsKnown(run: seq<Delivery>, k: string)
    requires Used(run, k)
    ensures k in After(run).ledger
  {
    OwnKeyExactly(run, k);
    RunKeepsGood(run);
    var u := After(run);
    if i :| 0 <= i < |u.sent| && u.sent[i].0 == k { assert Holds(u.ledger, u.sent[i].0, u.sent[i].1); }
  }

  /** An operation that comes for the first time, valid, in time and under a
      new correlation id, is run exactly unless a command of the run used its
      key as its correlation id. */
  lemma FirstTimeRunsExactly(run: seq<Delivery>, c: Command, w: Weather)
    requires c.HasKey() && !OwnStarted(run, c.Key()) && !w.expired && w.link.Up?
    requires c.correlation == "" || c.correlation !in After(run).ledger
    ensures Runs(After(run).ledger, c, w) <==> !Used(run, c.Key())
  {
    OwnKeyExactly(run, c.Key());
    if Used(run, c.Key()) { UsedIsKnown(run, c.Key()); }
  }

  // -------------------------------------------------------------- witnesses

  /** A command that was run from an empty ledger and answered has its answer
      under its correlation id, and nothing else is known. */
  lemma AnsweredOnce(first: Command, w: Weather, steps: nat)
    requires first.operation == "" && first.envelope.None? && first.correlation != ""
    requires !w.expired && w.link.Up? && steps >= |Plan(map[], {}, first, w)|
    ensures var u := After([Delivery({}, first, w, steps)]);
      && u.runs == [first]
      && Holds(u.ledger, first.correlation, Body(Answer(first.correlation, w.verdict, w.now, false)))
      && forall k :: k in u.ledger ==> k == first.correlation
  {
    var none, d := World(map[], [], [], []), Delivery({}, first, w, steps);
    OneMore([], d);
    assert [] + [d] == [d];
    assert Steps(none, d) == Planned(none, d) == Executing(first, w) + Answering(first, w.verdict, false, w);
    Executed(none, first, w);
    OnlyOwnKeys(none, first, w);
    DoAllJoins(none, Executing(first, w), Answering(first, w.verdict, false, w));
    AnsweringSends(DoAll(none, Executing(first, w)), first, w.verdict, false, w);
  }

  /** One sender's correlation id is another's operation key: its command runs,
      and the operation, sent for the first time, is answered 409 and not run. */
  lemma BlocksTheOperation(first: Command, w: Weather, steps: nat, c: Command, w': Weather)
    requires first.operation == "" && first.envelope.None? && first.correlation == c.Key()
    requires !w.expired && w.link.Up? && steps >= |Plan(map[], {}, first, w)|
    requires c.HasKey() && c.correlation !in {"", c.Key()}
    ensures var u := After([Delivery({}, first, w, steps)]);
      var v := DoAll(u, Plan(u.ledger, {}, c, w'));
      && u.runs == [first] && v.runs == [first]
      && Holds(v.ledger, c.correlation, Body(Answer(c.correlation, CONFLICT, w'.now, false)))
  {
    assert c.Key()[0] == 'o';
    AnsweredOnce(first, w, steps);
    var u := After([Delivery({}, first, w, steps)]);
    AnsweringSends(u, c, CONFLICT, false, w');
    assert [] + Answering(c, CONFLICT, false, w') == Answering(c, CONFLICT, false, w');
    assert Plan(u.ledger, {}, c, w') == Answering(c, CONFLICT, false, w');
  }

  /** Whatever stands under a key is published as the answer of a command that
      has the key as its correlation id, whoever sends it: an operation's
      outcome to another sender too. */
  lemma ShownToAnother(u: World, answered: set<string>, c: Command, w: Weather, entry: Entry)
    requires c.correlation != "" && c.correlation !in answered && Holds(u.ledger, c.correlation, entry)
    ensures var v := DoAll(u, Plan(u.ledger, answered, c, w));
      && |v.sent| == |u.sent| + w.sends
      && forall i :: |u.sent| <= i < |v.sent| ==> v.sent[i] == (c.correlation, entry)
  {
    PublishingSends(u, c.correlation, entry, w.sends);
  }
}
