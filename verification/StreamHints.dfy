/** Stream-change hints, the doorbell and the consumer that sleeps on it.

    The node, the watcher thread and the consumer thread interleave freely;
    each method is one atomic step of one of them. */
module StreamHints {
  import opened Options

  /** What the newest hint said: the stream's head, when the node sent it, and
      the subscription that delivered it. */
  datatype StreamChange = StreamChange(head: Option<nat>, subscription: nat) {

    /** Whether a consumer has nothing to read on this hint. */
    predicate Covers(position: nat, drainedOn: Option<nat>) {
      head.Some? && drainedOn == Some(subscription) && position >= head.value
    }
  }

  /** A hint on its way: the stream's head when the node sent it, and whether
      it says so. */
  datatype Sent = Sent(at: nat, withHead: bool) {
    function Head(): Option<nat> { if withHead then Some(at) else None }
  }

  /** Where the consumer's loop stands. */
  datatype Phase =
    | Top
    | Captured
    | Decided(change: Option<StreamChange>)
    | Draining(change: Option<StreamChange>, bound: nat)
    | Waiting(change: Option<StreamChange>)
    | BackingOff

  datatype Step =
    | Grow(records: nat) | Connect | Disconnect | Send(withHead: bool) | Hint | Ring
    | Capture | ReadHint | Decide | DrainEnds(reached: nat) | DrainFails(reached: nat)
    | Wake | TimeOut | Retry
  {
    predicate OfNode() { Grow? || Connect? || Disconnect? || Send? }
  }

  /** Where node, watcher and consumer stand. */
  datatype Standing = Standing(nodeHead: nat, connected: bool, hintDue: bool, sent: seq<Sent>, subscription: nat,
                               opening: bool, latest: Option<StreamChange>, recorded: bool, generation: nat,
                               phase: Phase, seen: nat, position: nat, drainedOn: Option<nat>)

  /** What a step does when it is possible; otherwise it does nothing. */
  ghost predicate Did(a: Standing, step: Step, b: Standing) {
    match step
    case Grow(records) => b == a.(nodeHead := a.nodeHead + records, hintDue := a.hintDue || records > 0)
    case Connect => b == if a.connected then a else a.(connected := true, hintDue := true, opening := true)
    case Disconnect => b == if a.connected && !a.recorded then a.(connected := false, sent := []) else a
    case Send(withHead) =>
      b == if a.connected && a.hintDue then a.(hintDue := false, sent := a.sent + [Sent(a.nodeHead, withHead)]) else a
    case Hint =>
      var on := if a.opening then a.subscription + 1 else a.subscription;
      b == if a.connected && a.sent != [] && !a.recorded
           then a.(subscription := on, opening := false, sent := a.sent[1..], recorded := true,
                   latest := Some(StreamChange(a.sent[0].Head(), on))) else a
    case Ring => b == if a.recorded then a.(recorded := false, generation := a.generation + 1) else a
    case Capture => b == if a.phase.Top? then a.(phase := Captured, seen := a.generation) else a
    case ReadHint => b == if a.phase.Captured? then a.(phase := Decided(a.latest)) else a
    case Decide =>
      b == if a.phase.Decided?
           then a.(phase := Decision(a.phase.change, a.position, a.drainedOn, a.nodeHead)) else a
    case DrainEnds(reached) =>
      b == if a.phase.Draining? && reached >= a.phase.bound
           then a.(phase := Waiting(a.phase.change), position := reached,
                   drainedOn := if a.phase.change.Some? then Some(a.phase.change.value.subscription) else a.drainedOn)
           else a
    case DrainFails(reached) => b == if a.phase.Draining? then a.(phase := BackingOff, position := reached) else a
    case Wake => b == if a.phase.Waiting? && a.generation != a.seen then a.(phase := Top) else a
    case TimeOut => b == if a.phase.Waiting? then a.(phase := Top) else a
    case Retry => b == if a.phase.BackingOff? then a.(phase := Top) else a
  }

  /** Each of the first so many steps did what it is for. */
  ghost predicate IsPath(path: seq<Standing>, schedule: seq<Step>, n: nat) {
    && n <= |schedule| && |path| == n + 1
    && forall i :: 0 <= i < n ==> Did(path[i], schedule[i], path[i + 1])
  }

  /** Skip the fetch, or drain to the hint's head, or to the tail read now
      when the hint has none. */
  function Decision(change: Option<StreamChange>, position: nat, drainedOn: Option<nat>, tail: nat): Phase {
    if change.Some? && change.value.Covers(position, drainedOn) then Waiting(change)
    else Draining(change, if change.Some? && change.value.head.Some? then change.value.head.value else tail)
  }

  class Watched {
    // The node: the stream's last offset, whether a hint is due to this watch,
    // and the hints on their way to it.
    var nodeHead: nat
    var connected: bool
    var hintDue: bool
    var sent: seq<Sent>

    // The watcher: `opening` says that no hint of this connection was recorded
    // yet, `recorded` that one was whose ring is still to come.
    var subscription: nat
    var opening: bool
    var latest: Option<StreamChange>
    var recorded: bool

    // The doorbell.
    var generation: nat

    // The consumer.
    var phase: Phase
    var seen: nat
    var position: nat
    var drainedOn: Option<nat>

    /** The node's head when the newest hint recorded was sent, and when the
        hint the consumer goes by was. */
    ghost var hinted: nat
    ghost var goesBy: nat

    constructor ()
      ensures Valid() && phase.Top? && position == 0
    {
      nodeHead, connected, hintDue, sent, subscription, latest, recorded := 0, false, false, [], 0, None, false;
      opening := true;
      generation, phase, seen, position, drainedOn, hinted, goesBy := 0, Top, 0, 0, None, 0, 0;
    }

    ghost predicate Valid()
      reads this
    {
      && hinted <= nodeHead && seen <= generation
      && (forall i :: 0 <= i < |sent| ==> sent[i].at <= nodeHead) && (!connected ==> sent == [])
      && (connected && !hintDue && sent != [] ==> sent[|sent| - 1].at == nodeHead)
      && (UpToDate() ==> hinted == nodeHead && latest.Some? && latest.value.subscription == subscription)
      && (latest.Some? && latest.value.head.Some? ==> latest.value.head.value == hinted)
      && (if latest.Some? then latest.value.subscription <= subscription else hinted == 0)
      && match phase
         case Top => true
         case Captured => true
         case Decided(change) => Current(change) && goesBy <= nodeHead
         case Draining(change, bound) => Current(change) && goesBy <= bound
         case Waiting(change) => Current(change) && Served(change)
         case BackingOff => true
    }

    /** The node owes no hint, and none is on its way. */
    predicate UpToDate()
      reads this
    {
      connected && !hintDue && sent == []
    }

    /** The hint the consumer goes by is the newest, or a ring since it
        captured the generation is sounding or still to come. */
    ghost predicate Current(change: Option<StreamChange>)
      reads this
    {
      && (recorded || generation != seen || (latest == change && hinted == goesBy))
      && (change.Some? && change.value.head.Some? ==> change.value.head.value == goesBy)
      && (change.None? ==> goesBy == 0)
    }

    ghost predicate Served(change: Option<StreamChange>)
      reads this
    {
      position >= goesBy && (change.Some? ==> drainedOn == Some(change.value.subscription))
    }

    /** Asleep: waiting on the generation it captured, with no ring to come. */
    ghost predicate Asleep()
      reads this
    {
      phase.Waiting? && generation == seen && !recorded
    }

    /** No wake-up is lost: a consumer asleep has drained on the newest hint's
        subscription and passed that hint's head; and when no hint is due or on
        its way either, nothing at all is unread. */
    ghost predicate NoLostWakeUp()
      reads this
    {
      Asleep() ==>
        && (latest.Some? ==> drainedOn == Some(latest.value.subscription))
        && (latest.Some? && latest.value.head.Some? ==> position >= latest.value.head.value)
        && (UpToDate() ==> position >= nodeHead && drainedOn == Some(subscription))
    }

    // ---------------------------------------------------------- the node

    method Grow(records: nat)
      requires Valid()
      modifies this`nodeHead, this`hintDue
      ensures Valid() && nodeHead == old(nodeHead) + records && hintDue == (old(hintDue) || records > 0)
    {
      nodeHead := nodeHead + records;
      if records > 0 { hintDue := true; }
    }

    /** A subscription is established; its first hint names every stream. */
    method Connect()
      requires Valid() && !connected
      modifies this`connected, this`hintDue, this`opening
      ensures Valid() && connected && hintDue && opening
    {
      connected, hintDue, opening := true, true, true;
    }

    /** The hints on their way are lost with the connection. */
    method Disconnect()
      requires Valid() && connected && !recorded
      modifies this`connected, this`sent
      ensures Valid() && !connected && sent == []
    {
      connected, sent := false, [];
    }

    /** A hint says where the stream's head is now, or only that it moved. */
    method Send(withHead: bool)
      requires Valid() && connected && hintDue
      modifies this`hintDue, this`sent
      ensures Valid() && !hintDue && sent == old(sent) + [Sent(nodeHead, withHead)]
    {
      hintDue, sent := false, sent + [Sent(nodeHead, withHead)];
    }

    // ------------------------------------------------------- the watcher

    /** The next hint arrives and is recorded, before the stream's bell rings;
        the stream may have grown since it was sent. The first one of a
        connection counts a new subscription. */
    method Hint()
      requires Valid() && connected && sent != [] && !recorded
      modifies this`sent, this`subscription, this`latest, this`recorded, this`hinted, this`opening
      ensures Valid() && recorded && !opening && sent == old(sent)[1..] && hinted == old(sent)[0].at
      ensures subscription == if old(opening) then old(subscription) + 1 else old(subscription)
      ensures latest == Some(StreamChange(old(sent)[0].Head(), subscription))
    {
      if opening { subscription, opening := subscription + 1, false; }
      latest := Some(StreamChange(sent[0].Head(), subscription));
      recorded, hinted, sent := true, sent[0].at, sent[1..];
    }

    /** `Doorbell.ring`. */
    method Ring()
      requires Valid() && recorded
      modifies this`recorded, this`generation
      ensures Valid() && !recorded && generation == old(generation) + 1
    {
      recorded, generation := false, generation + 1;
    }

    // ------------------------------------------------------ the consumer

    /** The generation is captured before the hint is read. */
    method Capture()
      requires Valid() && phase.Top?
      modifies this`phase, this`seen
      ensures Valid() && phase.Captured? && seen == generation
    {
      seen, phase := generation, Captured;
    }

    method ReadHint()
      requires Valid() && phase.Captured?
      modifies this`phase, this`goesBy
      ensures Valid() && phase == Decided(latest)
    {
      goesBy := hinted;
      phase := Decided(latest);
    }

    method Decide()
      requires Valid() && phase.Decided?
      modifies this`phase
      ensures Valid()
      ensures phase == Decision(old(phase.change), position, drainedOn, nodeHead)
      ensures phase.Waiting? <==> exists head: nat, on: nat :: old(phase.change) == Some(StreamChange(Some(head), on))
                                                      && drainedOn == Some(on) && position >= head
    {
      var change := phase.change;
      if change.Some? && change.value.Covers(position, drainedOn) {
        phase := Waiting(change);
      } else if change.Some? && change.value.head.Some? {
        phase := Draining(change, change.value.head.value);
      } else {
        phase := Draining(change, nodeHead);
      }
    }

    /** A complete drain reached its head; a node that lost records may have
        taken the position back before it. */
    method DrainEnds(reached: nat)
      requires Valid() && phase.Draining? && reached >= phase.bound
      modifies this`phase, this`position, this`drainedOn
      ensures Valid() && phase == Waiting(old(phase.change)) && position == reached
      ensures drainedOn
        == if old(phase.change).Some? then Some(old(phase.change).value.subscription) else old(drainedOn)
    {
      var change := phase.change;
      position := reached;
      if change.Some? { drainedOn := Some(change.value.subscription); }
      phase := Waiting(change);
    }

    /** A failed drain is retried after a backoff, not on the bell. */
    method DrainFails(reached: nat)
      requires Valid() && phase.Draining?
      modifies this`phase, this`position
      ensures Valid() && phase.BackingOff? && position == reached
    {
      position, phase := reached, BackingOff;
    }

    /** The wait ends: the bell rang since the generation was captured, or the
        idle time, or the backoff, passed. */
    method WakeUp(rang: bool)
      requires Valid() && (phase.Waiting? || phase.BackingOff?) && (rang && phase.Waiting? ==> generation != seen)
      modifies this`phase
      ensures Valid() && phase.Top?
    {
      phase := Top;
    }

    ghost function Now(): Standing
      reads this
    {
      Standing(nodeHead, connected, hintDue, sent, subscription, opening, latest, recorded, generation, phase, seen,
               position, drainedOn)
    }

    /** A step of the node. */
    method TakeNode(step: Step)
      requires Valid() && step.OfNode()
      modifies this`nodeHead, this`connected, this`hintDue, this`opening, this`sent
      ensures Valid() && Did(old(Now()), step, Now())
    {
      match step
      case Grow(records) => Grow(records);
      case Connect => if !connected { Connect(); }
      case Disconnect => if connected && !recorded { Disconnect(); }
      case Send(withHead) => if connected && hintDue { Send(withHead); }
      case _ =>
    }

    /** A step of the watcher. */
    method TakeWatcher(step: Step)
      requires Valid() && (step.Hint? || step.Ring?)
      modifies this`sent, this`subscription, this`latest, this`recorded, this`hinted, this`opening, this`generation
      ensures Valid() && Did(old(Now()), step, Now())
    {
      if step.Hint? {
        if connected && sent != [] && !recorded { Hint(); }
      } else if recorded {
        Ring();
      }
    }

    /** The consumer looks at the hint. */
    method TakeLook(step: Step)
      requires Valid() && (step.Capture? || step.ReadHint? || step.Decide?)
      modifies this`phase, this`seen, this`goesBy
      ensures Valid() && Did(old(Now()), step, Now())
    {
      if step.Capture? {
        if phase.Top? { Capture(); }
      } else if step.ReadHint? {
        if phase.Captured? { ReadHint(); }
      } else if phase.Decided? {
        Decide();
      }
    }

    /** It drains, or waits. */
    method TakeDrain(step: Step)
      requires Valid()
      requires !step.OfNode() && !(step.Hint? || step.Ring? || step.Capture? || step.ReadHint? || step.Decide?)
      modifies this`phase, this`position, this`drainedOn
      ensures Valid() && Did(old(Now()), step, Now())
    {
      if step.DrainEnds? {
        if phase.Draining? && step.reached >= phase.bound { DrainEnds(step.reached); }
      } else if step.DrainFails? {
        if phase.Draining? { DrainFails(step.reached); }
      } else if step.Wake? {
        if phase.Waiting? && generation != seen { WakeUp(true); }
      } else if step.TimeOut? {
        if phase.Waiting? { WakeUp(false); }
      } else if phase.BackingOff? {
        WakeUp(false);
      }
    }

    /** One step, if it is possible. */
    method Take(step: Step)
      requires Valid()
      modifies this
      ensures Valid() && Did(old(Now()), step, Now())
    {
      if step.OfNode() {
        TakeNode(step);
      } else if step.Hint? || step.Ring? {
        TakeWatcher(step);
      } else if step.Capture? || step.ReadHint? || step.Decide? {
        TakeLook(step);
      } else {
        TakeDrain(step);
      }
    }

    /** Any interleaving; `path` is where it led, step by step. */
    method Run(schedule: seq<Step>) returns (ghost path: seq<Standing>)
      requires Valid()
      modifies this
      ensures Valid() && NoLostWakeUp()
      ensures IsPath(path, schedule, |schedule|) && path[0] == old(Now()) && path[|schedule|] == Now()
    {
      path := [Now()];
      for i := 0 to |schedule|
        invariant Valid() && IsPath(path, schedule, i) && path[0] == old(Now()) && path[i] == Now()
      {
        Take(schedule[i]);
        path := path + [Now()];
      }
    }
  }
}
