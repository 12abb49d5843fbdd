/**
  The send pipeline of peer.go: producers put messages on outgoingQueue, queueHandler forwards one
  at a time over sendQueue, and outHandler writes it and answers over sendQueueSync. The two
  goroutines and the producers interleave freely; each channel operation is one atomic step.
*/
module PeerPipeline {
  import opened Basics

  const OUTGOING_QUEUE_LEN := 50
  const SEND_QUEUE_LEN := 1
  const SYNC_LEN := 1

  /** queueHandler: in its select, about to send m on sendQueue, or returned. */
  datatype QueuePc<M> = Selecting | Forwarding(m: M) | QueueDone

  /** outHandler: in its select, writing, about to send the token, draining after quit, or returned. */
  datatype OutPc<M> = Listening | Writing(m: M) | Syncing | Draining | OutDone

  datatype Peer<M> = Peer(
    outgoingQueue: seq<M>,
    sendQueue: seq<M>,
    sendQueueSync: nat,
    pendingMsgs: seq<M>,
    waitOnSync: bool,
    queuePc: QueuePc<M>,
    outPc: OutPc<M>,
    quit: bool,          // Stop was called: `disconnect` is set and quit is closed
    enqueued: seq<M>,    // history: everything put on outgoingQueue
    written: seq<M>)     // history: everything written to the connection

  function NewPeer<M>(): Peer<M> {
    Peer([], [], 0, [], false, Selecting, Listening, false, [], [])
  }

  datatype Action<M> =
    | Enqueue(m: M)      // a producer sends on outgoingQueue
    | TakeOutgoing       // queueHandler receives from outgoingQueue
    | Forward            // queueHandler's send on sendQueue completes
    | TakeSync           // queueHandler receives from sendQueueSync
    | QueueQuit          // queueHandler sees quit and closes queueQuit
    | TakeSend           // outHandler receives from sendQueue
    | Write              // writeMessage returns
    | SendSync           // outHandler's send on sendQueueSync completes
    | OutQuit            // outHandler sees quit
    | Drain              // outHandler drops a queued message, or returns when there is none
    | Stop

  /** Whether the channel operation behind an action can proceed. */
  predicate Enabled<M>(p: Peer<M>, a: Action<M>) {
    match a
    case Enqueue(_) => |p.outgoingQueue| < OUTGOING_QUEUE_LEN
    case TakeOutgoing => p.queuePc.Selecting? && p.outgoingQueue != []
    case Forward => p.queuePc.Forwarding? && |p.sendQueue| < SEND_QUEUE_LEN
    case TakeSync => p.queuePc.Selecting? && p.sendQueueSync > 0
    case QueueQuit => p.queuePc.Selecting? && p.quit
    case TakeSend => p.outPc.Listening? && p.sendQueue != []
    case Write => p.outPc.Writing?
    case SendSync => p.outPc.Syncing? && p.sendQueueSync < SYNC_LEN
    case OutQuit => p.outPc.Listening? && p.quit
    case Drain => p.outPc.Draining? && p.queuePc.QueueDone?
    case Stop => !p.quit
  }

  function Next<M>(p: Peer<M>, a: Action<M>): Peer<M>
    requires Enabled(p, a)
  {
    match a
    case Enqueue(m) => p.(outgoingQueue := p.outgoingQueue + [m], enqueued := p.enqueued + [m])
    case TakeOutgoing =>
      var m, rest := p.outgoingQueue[0], p.outgoingQueue[1..];
      if !p.waitOnSync then p.(outgoingQueue := rest, queuePc := Forwarding(m))
      else p.(outgoingQueue := rest, pendingMsgs := p.pendingMsgs + [m])
    case Forward => p.(sendQueue := p.sendQueue + [p.queuePc.m], waitOnSync := true, queuePc := Selecting)
    case TakeSync =>
      if p.pendingMsgs == [] then p.(sendQueueSync := p.sendQueueSync - 1, waitOnSync := false)
      else p.(sendQueueSync := p.sendQueueSync - 1, pendingMsgs := p.pendingMsgs[1..], queuePc := Forwarding(p.pendingMsgs[0]))
    case QueueQuit => p.(queuePc := QueueDone)
    case TakeSend => p.(sendQueue := p.sendQueue[1..], outPc := Writing(p.sendQueue[0]))
    case Write => p.(written := if p.quit then p.written else p.written + [p.outPc.m], outPc := Syncing)
    case SendSync => p.(sendQueueSync := p.sendQueueSync + 1, outPc := Listening)
    case OutQuit => p.(outPc := Draining)
    case Drain => if p.sendQueue == [] then p.(outPc := OutDone) else p.(sendQueue := p.sendQueue[1..])
    case Stop => p.(quit := true)
  }

  // ----- Runs -----

  ghost predicate IsRun<M>(p: Peer<M>, actions: seq<Action<M>>, q: Peer<M>)
    decreases |actions|
  {
    if actions == [] then p == q
    else Enabled(p, actions[0]) && IsRun(Next(p, actions[0]), actions[1..], q)
  }

  ghost predicate Reachable<M(!new)>(p: Peer<M>) {
    exists actions :: IsRun(NewPeer(), actions, p)
  }

  // ----- The invariant -----

  function InWrite<M>(p: Peer<M>): seq<M> {
    if p.outPc.Writing? then [p.outPc.m] else []
  }

  function Held<M>(p: Peer<M>): seq<M> {
    if p.queuePc.Forwarding? then [p.queuePc.m] else []
  }

  /** Accepted messages that are still in the pipeline, oldest first. */
  function InFlight<M>(p: Peer<M>): seq<M> {
    InWrite(p) + p.sendQueue + Held(p) + p.pendingMsgs + p.outgoingQueue
  }

  /** How many of the four places hold the one token of the protocol. */
  function Tokens<M>(p: Peer<M>): nat {
    |p.sendQueue| + p.sendQueueSync
    + (if p.queuePc.Forwarding? then 1 else 0)
    + (if p.outPc.Writing? || p.outPc.Syncing? then 1 else 0)
  }

  /** At most one token exists; it exists exactly while waitOnSync is set or about to be. */
  ghost predicate TokenInv<M>(p: Peer<M>) {
    && Tokens(p) <= 1
    && (!p.queuePc.QueueDone? ==> (Tokens(p) == 1 <==> p.waitOnSync || p.queuePc.Forwarding?))
    && (!p.waitOnSync ==> p.pendingMsgs == [])
    && ((p.outPc.Draining? || p.outPc.OutDone? || p.queuePc.QueueDone?) ==> p.quit)
    && (p.outPc.OutDone? ==> p.queuePc.QueueDone?)
    && |p.outgoingQueue| <= OUTGOING_QUEUE_LEN
  }

  /** Nothing is lost, doubled or reordered before shutdown, and afterwards only a suffix is lost. */
  ghost predicate OrderInv<M>(p: Peer<M>) {
    && (!p.quit ==> p.written + InFlight(p) == p.enqueued)
    && p.written <= p.enqueued
  }

  lemma {:induction false} TokenStep<M>(p: Peer<M>, a: Action<M>)
    requires TokenInv(p) && Enabled(p, a)
    ensures TokenInv(Next(p, a))
  {
  }

  /** What a step does to the history. */
  lemma {:induction false} HistoryStep<M>(p: Peer<M>, a: Action<M>)
    requires Enabled(p, a)
    ensures Next(p, a).enqueued == if a.Enqueue? then p.enqueued + [a.m] else p.enqueued
    ensures a.Write? ==> p.outPc.Writing?
    ensures Next(p, a).written == if a.Write? && !p.quit then p.written + [p.outPc.m] else p.written
    ensures Next(p, a).quit == (p.quit || a.Stop?)
  {
  }

  lemma {:induction false} OrderStep<M>(p: Peer<M>, a: Action<M>)
    requires TokenInv(p) && OrderInv(p) && Enabled(p, a)
    ensures OrderInv(Next(p, a))
  {
    hide Next, Enabled, InFlight, TokenInv;
    HistoryStep(p, a);
    var q := Next(p, a);
    if !q.quit {
      FlightStep(p, a);
      if a.Write? {
        Associative(p.written, [p.outPc.m], InFlight(q));
      } else if a.Enqueue? {
        Associative(p.written, InFlight(p), [a.m]);
      }
    }
  }

  lemma {:induction false} Associative<T>(a: seq<T>, b: seq<T>, c: seq<T>)
    ensures a + b + c == a + (b + c)
  {
  }

  /** Which places are empty when a message moves. */
  lemma {:induction false} EmptyPlaces<M>(p: Peer<M>, a: Action<M>)
    requires TokenInv(p) && Enabled(p, a)
    ensures a.TakeOutgoing? ==> Held(p) == [] && p.outgoingQueue != [] && (!p.waitOnSync ==> p.pendingMsgs == [])
    ensures a.Forward? ==> p.queuePc.Forwarding? && InWrite(p) == [] && p.sendQueue == []
    ensures a.TakeSync? ==> p.sendQueueSync > 0 && InWrite(p) == [] && p.sendQueue == [] && Held(p) == []
    ensures a.TakeSend? ==> InWrite(p) == [] && |p.sendQueue| == 1
  {
  }

  lemma {:induction false} FlightTakeOutgoing<M>(p: Peer<M>)
    requires TokenInv(p) && Enabled(p, TakeOutgoing)
    ensures InFlight(Next(p, TakeOutgoing)) == InFlight(p)
  {
    hide TokenInv;
    EmptyPlaces(p, TakeOutgoing);
    var front := InWrite(p) + p.sendQueue;
    var m, rest := p.outgoingQueue[0], p.outgoingQueue[1..];
    assert p.outgoingQueue == [m] + rest;
    assert front + [] == front && front + [m] + [] == front + [m];
    Associative(front, [m], rest);
    Associative(front, p.pendingMsgs, [m]);
    Associative(front + p.pendingMsgs, [m], rest);
  }

  lemma {:induction false} FlightForward<M>(p: Peer<M>)
    requires TokenInv(p) && Enabled(p, Forward)
    ensures InFlight(Next(p, Forward)) == InFlight(p)
  {
    hide TokenInv;
    EmptyPlaces(p, Forward);
    var m := p.queuePc.m;
    assert [] + [] + [m] == [m] && [] + ([] + [m]) + [] == [m];
  }

  lemma {:induction false} FlightTakeSync<M>(p: Peer<M>)
    requires TokenInv(p) && Enabled(p, TakeSync)
    ensures InFlight(Next(p, TakeSync)) == InFlight(p)
  {
    hide TokenInv;
    EmptyPlaces(p, TakeSync);
    if p.pendingMsgs == [] {
    } else {
      var m, rest := p.pendingMsgs[0], p.pendingMsgs[1..];
      assert [] + [] + [m] + rest == p.pendingMsgs == [] + [] + [] + p.pendingMsgs;
    }
  }

  lemma {:induction false} FlightTakeSend<M>(p: Peer<M>)
    requires TokenInv(p) && Enabled(p, TakeSend)
    ensures InFlight(Next(p, TakeSend)) == InFlight(p)
  {
    hide TokenInv;
    EmptyPlaces(p, TakeSend);
    var m := p.sendQueue[0];
    assert p.sendQueue == [m] && p.sendQueue[1..] == [];
    assert [] + [m] == [m] == [m] + [];
  }

  lemma {:induction false} FlightEnqueue<M>(p: Peer<M>, m: M)
    requires Enabled(p, Enqueue(m))
    ensures InFlight(Next(p, Enqueue(m))) == InFlight(p) + [m]
  {
    Associative(InWrite(p) + p.sendQueue + Held(p) + p.pendingMsgs, p.outgoingQueue, [m]);
  }

  lemma {:induction false} FlightWrite<M>(p: Peer<M>)
    requires Enabled(p, Write)
    ensures InFlight(p) == [p.outPc.m] + InFlight(Next(p, Write))
  {
    var m := p.outPc.m;
    assert [] + p.sendQueue == p.sendQueue;
    Associative([m], p.sendQueue, Held(p));
    Associative([m], p.sendQueue + Held(p), p.pendingMsgs);
    Associative([m], p.sendQueue + Held(p) + p.pendingMsgs, p.outgoingQueue);
  }

  /** Only enqueueing adds to the pipeline, at its end, and only writing removes from it, at its front. */
  lemma {:induction false} FlightStep<M>(p: Peer<M>, a: Action<M>)
    requires TokenInv(p) && Enabled(p, a) && !p.quit && !a.Stop?
    ensures a.Enqueue? ==> InFlight(Next(p, a)) == InFlight(p) + [a.m]
    ensures a.Write? ==> p.outPc.Writing? && InFlight(p) == [p.outPc.m] + InFlight(Next(p, a))
    ensures !a.Enqueue? && !a.Write? ==> InFlight(Next(p, a)) == InFlight(p)
  {
    match a
    case Enqueue(m) => FlightEnqueue(p, m);
    case TakeOutgoing => FlightTakeOutgoing(p);
    case Forward => FlightForward(p);
    case TakeSync => FlightTakeSync(p);
    case TakeSend => FlightTakeSend(p);
    case Write => FlightWrite(p);
    case _ => FlightStays(p, a);
  }

  /** The other steps before shutdown move no message. */
  lemma {:induction false} FlightStays<M>(p: Peer<M>, a: Action<M>)
    requires TokenInv(p) && Enabled(p, a) && !p.quit
    requires a.QueueQuit? || a.SendSync? || a.OutQuit? || a.Drain?
    ensures InFlight(Next(p, a)) == InFlight(p)
  {
  }

  // ----- Over whole runs -----

  lemma {:induction false} RunKeepsInv<M>(p: Peer<M>, actions: seq<Action<M>>, q: Peer<M>)
    requires TokenInv(p) && OrderInv(p) && IsRun(p, actions, q)
    ensures TokenInv(q) && OrderInv(q)
    decreases |actions|
  {
    if actions == [] {
    } else {
      TokenStep(p, actions[0]);
      OrderStep(p, actions[0]);
      RunKeepsInv(Next(p, actions[0]), actions[1..], q);
    }
  }

  /**
    In every reachable state: until Stop, what is written followed by what is in the pipeline is
    exactly what was enqueued, in order; after Stop, what is written is still a prefix of it.
  */
  lemma {:induction false} PipelineIsFifo<M(!new)>(p: Peer<M>)
    requires Reachable(p)
    ensures !p.quit ==> p.written + InFlight(p) == p.enqueued
    ensures p.written <= p.enqueued
    ensures TokenInv(p)
  {
    var actions :| IsRun(NewPeer(), actions, p);
    RunKeepsInv(NewPeer(), actions, p);
  }

  /** Neither handler ever has to wait in the middle of a case for the other one. */
  lemma {:induction false} HandlersNeverBlock<M(!new)>(p: Peer<M>)
    requires Reachable(p)
    ensures p.queuePc.Forwarding? ==> Enabled(p, Forward)
    ensures p.outPc.Syncing? ==> Enabled(p, SendSync)
  {
    PipelineIsFifo(p);
  }

  // ----- Producers -----

  function Enqueues<M>(ms: seq<M>): seq<Action<M>> {
    seq(|ms|, i requires 0 <= i < |ms| => Enqueue(ms[i]))
  }

  /** The producers can send all of ms while the handlers stand still. */
  ghost predicate Accepted<M(!new)>(p: Peer<M>, ms: seq<M>) {
    exists q :: IsRun(p, Enqueues(ms), q)
  }

  /** While the handlers stand still, messages are accepted exactly as long as fifty or fewer are queued. */
  lemma {:induction false} QueueHoldsFifty<M(!new)>(p: Peer<M>, ms: seq<M>)
    requires |p.outgoingQueue| <= 50
    ensures Accepted(p, ms) <==> |p.outgoingQueue| + |ms| <= 50
    decreases |ms|
  {
    if ms == [] {
      assert IsRun(p, Enqueues(ms), p);
    } else {
      var first := Enqueue(ms[0]);
      assert Enqueues(ms)[0] == first && Enqueues(ms)[1..] == Enqueues(ms[1..]);
      if Enabled(p, first) {
        QueueHoldsFifty(Next(p, first), ms[1..]);
        if Accepted(Next(p, first), ms[1..]) {
          var q :| IsRun(Next(p, first), Enqueues(ms[1..]), q);
          assert IsRun(p, Enqueues(ms), q);
        }
        if Accepted(p, ms) {
          var q :| IsRun(p, Enqueues(ms), q);
          assert IsRun(Next(p, first), Enqueues(ms[1..]), q);
        }
      }
    }
  }

  // ----- Progress -----

  predicate Internal<M>(a: Action<M>) {
    !a.Enqueue? && !a.Stop?
  }

  /** Nothing happens any more unless a producer or Stop acts. */
  ghost predicate Quiescent<M(!new)>(p: Peer<M>) {
    forall a :: Internal(a) ==> !Enabled(p, a)
  }

  /** Every message is worth more the further it is from being written and acknowledged. */
  function Work<M>(p: Peer<M>): nat {
    7 * |p.outgoingQueue| + 6 * |p.pendingMsgs| + 4 * |p.sendQueue| + p.sendQueueSync
    + (match p.queuePc case Forwarding(_) => 6 case Selecting => 1 case QueueDone => 0)
    + (match p.outPc case Writing(_) => 5 case Syncing => 4 case Listening => 2 case Draining => 1 case OutDone => 0)
  }

  lemma {:induction false} InternalStepsDoWork<M>(p: Peer<M>, a: Action<M>)
    requires TokenInv(p) && Internal(a) && Enabled(p, a)
    ensures Work(Next(p, a)) < Work(p)
  {
  }

  /** No run of the two handlers alone is longer than the work there is. */
  lemma {:induction false} InternalRunsAreShort<M>(p: Peer<M>, actions: seq<Action<M>>, q: Peer<M>)
    requires TokenInv(p) && IsRun(p, actions, q)
    requires forall i :: 0 <= i < |actions| ==> Internal(actions[i])
    ensures |actions| + Work(q) <= Work(p)
    decreases |actions|
  {
    if actions == [] {
    } else {
      TokenStep(p, actions[0]);
      InternalStepsDoWork(p, actions[0]);
      InternalRunsAreShort(Next(p, actions[0]), actions[1..], q);
    }
  }

  /**
    Progress: the handlers stop only when they are done. Before Stop, a state in which neither can
    move has written every message accepted; after Stop, both goroutines have returned.
  */
  lemma {:induction false} QuiescentMeansDone<M(!new)>(p: Peer<M>)
    requires Reachable(p) && Quiescent(p)
    ensures !p.quit ==> p.written == p.enqueued
    ensures p.quit ==> p.queuePc.QueueDone? && p.outPc.OutDone?
  {
    PipelineIsFifo(p);
    assert !Enabled(p, TakeOutgoing) && !Enabled(p, Forward) && !Enabled(p, TakeSync) && !Enabled(p, QueueQuit);
    assert !Enabled(p, TakeSend) && !Enabled(p, Write) && !Enabled(p, SendSync) && !Enabled(p, OutQuit) && !Enabled(p, Drain);
  }

  /**
    From any state that keeps the token invariant, some run of the handlers alone ends quiescent;
    by `InternalRunsAreShort` no run of them goes on for longer than the work there is.
  */
  lemma {:induction false} HandlersFinish<M(!new)>(p: Peer<M>) returns (actions: seq<Action<M>>, q: Peer<M>)
    requires TokenInv(p)
    ensures IsRun(p, actions, q) && Quiescent(q) && |actions| <= Work(p)
    ensures forall i :: 0 <= i < |actions| ==> Internal(actions[i])
    decreases Work(p)
  {
    if Quiescent(p) {
      actions, q := [], p;
    } else {
      var a :| Internal(a) && Enabled(p, a);
      TokenStep(p, a);
      InternalStepsDoWork(p, a);
      var rest;
      rest, q := HandlersFinish(Next(p, a));
      actions := [a] + rest;
      assert actions[0] == a && actions[1..] == rest;
    }
  }
}
