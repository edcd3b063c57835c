/** The in-memory transport under concurrency.  A send or receive is a topic lookup under the map's lock and then,
    later, an operation on the channel it found; between the two any other thread may run. */
module TransportProtocol {
  import opened Sequences
  import opened Transport

  type Tid = nat
  type Cid = nat

  /** Where a thread is in its current call, with what it holds. */
  datatype Pc =
    | Idle
    | SendLooked(topic: Topic, envelope: Envelope, c: Cid)  // a clone of the channel's sender
    | RecvLooked(topic: Topic, c: Cid)                      // the shared receiver
    | RecvLocked(topic: Topic, c: Cid)                      // its mutex, waiting for a message

  /** `queues` holds every channel ever made, by creation order.  `pushed` and `popped` record, per topic, what
      sends delivered and what receives returned. */
  datatype State = State(
    alive: bool,
    channels: map<Topic, Cid>,
    queues: seq<seq<Envelope>>,
    threads: map<Tid, Pc>,
    pushed: map<Topic, seq<Envelope>>,
    popped: map<Topic, seq<Envelope>>)

  function Init(): State {
    State(true, map[], [], map[], map[], map[])
  }

  function PcOf(s: State, tid: Tid): Pc {
    if tid in s.threads then s.threads[tid] else Idle
  }

  function At(m: map<Topic, seq<Envelope>>, t: Topic): seq<Envelope> {
    if t in m then m[t] else []
  }

  datatype Step =
    | LookupSend(tid: Tid, topic: Topic, envelope: Envelope)
    | Push(tid: Tid)
    | LookupRecv(tid: Tid, topic: Topic)
    | Lock(tid: Tid)
    | Pop(tid: Tid)
    | Disconnect(tid: Tid)  // the receive returns None
    | Drop                  // the last handle to the transport goes away

  /** The senders a channel has left: the map's own and the clones of threads about to push. */
  ghost predicate HasSender(s: State, c: Cid) {
    || (exists t :: t in s.channels && s.channels[t] == c)
    || (exists tid :: tid in s.threads && s.threads[tid].SendLooked? && s.threads[tid].c == c)
  }

  ghost predicate Locked(s: State, c: Cid) {
    exists tid :: tid in s.threads && s.threads[tid].RecvLocked? && s.threads[tid].c == c
  }

  ghost predicate Enabled(s: State, step: Step) {
    match step
    case LookupSend(tid, _, _) => s.alive && PcOf(s, tid).Idle?
    case LookupRecv(tid, _) => s.alive && PcOf(s, tid).Idle?
    case Push(tid) => PcOf(s, tid).SendLooked? && PcOf(s, tid).c < |s.queues|
    case Lock(tid) => PcOf(s, tid).RecvLooked? && !Locked(s, PcOf(s, tid).c)
    case Pop(tid) =>
      PcOf(s, tid).RecvLocked? && PcOf(s, tid).c < |s.queues| && s.queues[PcOf(s, tid).c] != []
    case Disconnect(tid) =>
      && PcOf(s, tid).RecvLocked? && PcOf(s, tid).c < |s.queues| && s.queues[PcOf(s, tid).c] == []
      && !HasSender(s, PcOf(s, tid).c)
    // a call borrows its handle, so the last one cannot go while a call is in progress
    case Drop => s.alive && forall tid :: tid in s.threads ==> s.threads[tid].Idle?
  }

  /** `channel_for`: the map's entry for the topic, or a new channel put there. */
  function ChannelFor(s: State, t: Topic): (State, Cid) {
    if t in s.channels then (s, s.channels[t])
    else (s.(channels := s.channels[t := |s.queues|], queues := s.queues + [[]]), |s.queues|)
  }

  ghost function Apply(s: State, step: Step): State
    requires Enabled(s, step)
  {
    match step
    case LookupSend(tid, t, e) =>
      var (s', c) := ChannelFor(s, t);
      s'.(threads := s.threads[tid := SendLooked(t, e, c)])
    case LookupRecv(tid, t) =>
      var (s', c) := ChannelFor(s, t);
      s'.(threads := s.threads[tid := RecvLooked(t, c)])
    case Push(tid) =>
      var pc := PcOf(s, tid);
      s.(queues := s.queues[pc.c := s.queues[pc.c] + [pc.envelope]],
         threads := s.threads[tid := Idle],
         pushed := s.pushed[pc.topic := At(s.pushed, pc.topic) + [pc.envelope]])
    case Lock(tid) =>
      var pc := PcOf(s, tid);
      s.(threads := s.threads[tid := RecvLocked(pc.topic, pc.c)])
    case Pop(tid) =>
      var pc := PcOf(s, tid);
      s.(queues := s.queues[pc.c := s.queues[pc.c][1..]],
         threads := s.threads[tid := Idle],
         popped := s.popped[pc.topic := At(s.popped, pc.topic) + [s.queues[pc.c][0]]])
    case Disconnect(tid) => s.(threads := s.threads[tid := Idle])
    case Drop => s.(alive := false, channels := map[])
  }

  // ---- runs

  /** A step that is not possible does not happen. */
  ghost function Next(s: State, step: Step): State {
    if Enabled(s, step) then Apply(s, step) else s
  }

  /** The state after any schedule of any number of threads. */
  ghost function After(steps: seq<Step>): State {
    if steps == [] then Init()
    else Next(After(steps[..|steps| - 1]), steps[|steps| - 1])
  }

  // ---- the invariant

  /** A thread in a call holds the channel the map has for its topic. */
  predicate HoldsMapped(s: State, pc: Pc) {
    pc.Idle? || (s.alive && pc.topic in s.channels && s.channels[pc.topic] == pc.c)
  }

  ghost predicate ChannelsDistinct(s: State) {
    && (forall t :: t in s.channels ==> s.channels[t] < |s.queues|)
    && (forall t, u :: t in s.channels && u in s.channels && s.channels[t] == s.channels[u] ==> t == u)
  }

  /** Of what was pushed on a topic, the popped part comes first and the rest is queued, in order. */
  predicate Conserved(s: State, t: Topic) {
    if t in s.channels then
      s.channels[t] < |s.queues| && At(s.pushed, t) == At(s.popped, t) + s.queues[s.channels[t]]
    else if s.alive then At(s.pushed, t) == [] && At(s.popped, t) == []
    else At(s.popped, t) <= At(s.pushed, t)
  }

  ghost predicate Inv(s: State) {
    && ChannelsDistinct(s)
    && (forall tid :: tid in s.threads ==> HoldsMapped(s, s.threads[tid]))
    && (forall t :: Conserved(s, t))
    && (forall i, j :: i in s.threads && j in s.threads && BothLock(s.threads[i], s.threads[j]) ==> i == j)
  }

  predicate BothLock(p: Pc, q: Pc) {
    p.RecvLocked? && q.RecvLocked? && p.c == q.c
  }

  lemma ChannelForKeepsInv(s: State, t: Topic)
    requires Inv(s) && s.alive
    ensures var (s', c) := ChannelFor(s, t); Inv(s') && s'.alive && t in s'.channels && s'.channels[t] == c
  {
    var s' := ChannelFor(s, t).0;
    forall u ensures Conserved(s', u) {
      assert Conserved(s, u);
    }
  }

  lemma EnterKeepsInv(s: State, tid: Tid, pc: Pc)
    requires Inv(s) && HoldsMapped(s, pc) && !pc.RecvLocked?
    ensures Inv(s.(threads := s.threads[tid := pc]))
  {
    var s' := s.(threads := s.threads[tid := pc]);
    forall u ensures Conserved(s', u) {
      assert Conserved(s, u);
    }
  }

  lemma PushKeepsInv(s: State, tid: Tid)
    requires Inv(s) && Enabled(s, Push(tid))
    ensures Inv(Apply(s, Push(tid)))
  {
    var s' := Apply(s, Push(tid));
    assert HoldsMapped(s, s.threads[tid]);
    forall u ensures Conserved(s', u) {
      assert Conserved(s, u);
    }
  }

  lemma PopKeepsInv(s: State, tid: Tid)
    requires Inv(s) && Enabled(s, Pop(tid))
    ensures Inv(Apply(s, Pop(tid)))
  {
    var s' := Apply(s, Pop(tid));
    var pc := s.threads[tid];
    assert HoldsMapped(s, pc);
    forall u ensures Conserved(s', u) {
      assert Conserved(s, u);
      if u == pc.topic {
        var q := s.queues[pc.c];
        assert q == [q[0]] + q[1..];
      }
    }
  }

  lemma DropKeepsInv(s: State)
    requires Inv(s) && Enabled(s, Drop)
    ensures Inv(Apply(s, Drop))
  {
    var s' := Apply(s, Drop);
    forall u ensures Conserved(s', u) {
      assert Conserved(s, u);
    }
  }

  lemma LockKeepsInv(s: State, tid: Tid)
    requires Inv(s) && Enabled(s, Lock(tid))
    ensures Inv(Apply(s, Lock(tid)))
  {
    var s' := Apply(s, Lock(tid));
    assert HoldsMapped(s, s.threads[tid]);
    forall u ensures Conserved(s', u) {
      assert Conserved(s, u);
    }
  }

  /** In a state that satisfies the invariant the map still holds a sender of any channel a receiver waits on. */
  lemma NoDisconnect(s: State, tid: Tid)
    requires Inv(s)
    ensures !Enabled(s, Disconnect(tid))
  {
    if PcOf(s, tid).RecvLocked? {
      assert HoldsMapped(s, s.threads[tid]);
    }
  }

  lemma StepKeepsInv(s: State, step: Step)
    requires Inv(s) && Enabled(s, step)
    ensures Inv(Apply(s, step))
  {
    match step
    case LookupSend(tid, t, e) =>
      var (s', c) := ChannelFor(s, t);
      ChannelForKeepsInv(s, t);
      EnterKeepsInv(s', tid, SendLooked(t, e, c));
    case LookupRecv(tid, t) =>
      var (s', c) := ChannelFor(s, t);
      ChannelForKeepsInv(s, t);
      EnterKeepsInv(s', tid, RecvLooked(t, c));
    case Push(tid) => PushKeepsInv(s, tid);
    case Lock(tid) => LockKeepsInv(s, tid);
    case Pop(tid) => PopKeepsInv(s, tid);
    case Disconnect(tid) => NoDisconnect(s, tid);
    case Drop => DropKeepsInv(s);
  }

  lemma {:induction false} RunKeepsInv(steps: seq<Step>)
    ensures Inv(After(steps))
  {
    if steps != [] {
      var s, step := After(steps[..|steps| - 1]), steps[|steps| - 1];
      RunKeepsInv(steps[..|steps| - 1]);
      if Enabled(s, step) {
        StepKeepsInv(s, step);
      }
    }
  }

  // ---- laws

  /** Under every interleaving, what was received on a topic is a prefix of what was sent on it. */
  lemma PoppedIsPrefix(steps: seq<Step>, t: Topic)
    ensures At(After(steps).popped, t) <= At(After(steps).pushed, t)
  {
    RunKeepsInv(steps);
    assert Conserved(After(steps), t);
  }

  /** A receive never returns None, and a send in progress can always deliver: the map still has both ends. */
  lemma NeverNone(steps: seq<Step>, tid: Tid)
    ensures !Enabled(After(steps), Disconnect(tid))
    ensures var s := After(steps); var pc := PcOf(s, tid);
      pc.SendLooked? ==> Enabled(s, Push(tid)) && s.alive && pc.topic in s.channels && s.channels[pc.topic] == pc.c
  {
    var s := After(steps);
    RunKeepsInv(steps);
    NoDisconnect(s, tid);
    if PcOf(s, tid).SendLooked? {
      assert HoldsMapped(s, s.threads[tid]);
    }
  }

  /** The abstract transport: one queue per topic. */
  function Fifo(s: State, t: Topic): seq<Envelope>
  {
    if t in s.channels && s.channels[t] < |s.queues| then s.queues[s.channels[t]] else []
  }

  /** The topic of the call a thread is in. */
  predicate CallsOn(s: State, tid: Tid, t: Topic) {
    !PcOf(s, tid).Idle? && PcOf(s, tid).topic == t
  }

  lemma PushAppends(s: State, tid: Tid, t: Topic)
    requires Inv(s) && Enabled(s, Push(tid)) && Inv(Apply(s, Push(tid)))
    ensures var s' := Apply(s, Push(tid));
      && Fifo(s', t) == Fifo(s, t) + (if CallsOn(s, tid, t) then [PcOf(s, tid).envelope] else [])
      && At(s'.popped, t) == At(s.popped, t)
  {
    assert HoldsMapped(s, s.threads[tid]);
  }

  lemma PopTakesFirst(s: State, tid: Tid, t: Topic)
    requires Inv(s) && Enabled(s, Pop(tid)) && Inv(Apply(s, Pop(tid)))
    ensures var s' := Apply(s, Pop(tid));
      if CallsOn(s, tid, t) then
        && Fifo(s, t) != [] && Fifo(s', t) == Fifo(s, t)[1..]
        && At(s'.popped, t) == At(s.popped, t) + [Fifo(s, t)[0]]
      else Fifo(s', t) == Fifo(s, t) && At(s'.popped, t) == At(s.popped, t)
  {
    assert HoldsMapped(s, s.threads[tid]);
  }

  lemma OthersStutter(s: State, step: Step, t: Topic)
    requires Enabled(s, step) && Inv(s) && Inv(Apply(s, step)) && !step.Drop? && !step.Push? && !step.Pop?
    ensures Fifo(Apply(s, step), t) == Fifo(s, t) && At(Apply(s, step).popped, t) == At(s.popped, t)
  {}

  /** Each step of any run is a step of one first-in first-out queue per topic, or none.  A push appends the call's
      envelope to the call's own topic, a pop takes and returns that topic's first, and every other queue, and every
      queue at any other step, stays as it is. */
  lemma StepRefinesFifo(steps: seq<Step>, step: Step, t: Topic)
    requires Enabled(After(steps), step) && !step.Drop?
    ensures Inv(After(steps)) && Inv(Apply(After(steps), step))
    ensures var s, s' := After(steps), Apply(After(steps), step);
      if step.Push? && CallsOn(s, step.tid, t) then
        Fifo(s', t) == Fifo(s, t) + [PcOf(s, step.tid).envelope] && At(s'.popped, t) == At(s.popped, t)
      else if step.Pop? && CallsOn(s, step.tid, t) then
        && Fifo(s, t) != [] && Fifo(s', t) == Fifo(s, t)[1..]
        && At(s'.popped, t) == At(s.popped, t) + [Fifo(s, t)[0]]
      else Fifo(s', t) == Fifo(s, t) && At(s'.popped, t) == At(s.popped, t)
  {
    var s := After(steps);
    RunKeepsInv(steps);
    StepKeepsInv(s, step);
    match step
    case Push(tid) => PushAppends(s, tid, t);
    case Pop(tid) => PopTakesFirst(s, tid, t);
    case _ => OthersStutter(s, step, t);
  }

  /** A receive is never stuck while there is something to receive: one or two steps of the threads that receive on
      the topic, and no others, return its first message. */
  lemma ReceiveProceeds(steps: seq<Step>, tid: Tid, t: Topic) returns (more: seq<Step>)
    requires Fifo(After(steps), t) != []
    requires CallsOn(After(steps), tid, t) && !PcOf(After(steps), tid).SendLooked?
    ensures 1 <= |more| <= 2 && forall k :: 0 <= k < |more| ==> ReceiverStep(After(steps), more[k], t)
    ensures At(After(steps + more).popped, t) == At(After(steps).popped, t) + [Fifo(After(steps), t)[0]]
  {
    var s := After(steps);
    RunKeepsInv(steps);
    assert HoldsMapped(s, s.threads[tid]);
    if PcOf(s, tid).RecvLocked? {
      more := PopNext(steps, tid, t);
    } else if Locked(s, PcOf(s, tid).c) {
      var holder :| holder in s.threads && s.threads[holder].RecvLocked? && s.threads[holder].c == PcOf(s, tid).c;
      assert HoldsMapped(s, s.threads[holder]);
      more := PopNext(steps, holder, t);
    } else {
      more := LockAndPop(steps, tid, t);
    }
  }

  lemma LockAndPop(steps: seq<Step>, tid: Tid, t: Topic) returns (more: seq<Step>)
    requires Inv(After(steps)) && Fifo(After(steps), t) != []
    requires CallsOn(After(steps), tid, t) && Enabled(After(steps), Lock(tid))
    ensures more == [Lock(tid), Pop(tid)]
    ensures At(After(steps + more).popped, t) == At(After(steps).popped, t) + [Fifo(After(steps), t)[0]]
  {
    OneMore(steps, Lock(tid));
    LockKeepsInv(After(steps), tid);
    var pop := PopNext(steps + [Lock(tid)], tid, t);
    more := [Lock(tid), Pop(tid)];
    assert steps + more == steps + [Lock(tid)] + pop;
  }

  /** A step of a receive in progress on the topic. */
  predicate ReceiverStep(s: State, step: Step, t: Topic) {
    (step.Lock? || step.Pop?) && CallsOn(s, step.tid, t) && !PcOf(s, step.tid).SendLooked?
  }

  lemma PopNext(steps: seq<Step>, tid: Tid, t: Topic) returns (more: seq<Step>)
    requires Inv(After(steps)) && Fifo(After(steps), t) != []
    requires CallsOn(After(steps), tid, t) && PcOf(After(steps), tid).RecvLocked?
    ensures more == [Pop(tid)]
    ensures At(After(steps + more).popped, t) == At(After(steps).popped, t) + [Fifo(After(steps), t)[0]]
  {
    var s := After(steps);
    more := [Pop(tid)];
    assert HoldsMapped(s, s.threads[tid]);
    OneMore(steps, Pop(tid));
    PopKeepsInv(s, tid);
    PopTakesFirst(s, tid, t);
  }

  lemma OneMore(steps: seq<Step>, step: Step)
    ensures After(steps + [step]) == Next(After(steps), step)
  {
    assert (steps + [step])[..|steps|] == steps;
  }

  /** A topic's channel is made once: as long as the transport is not dropped, no schedule removes or replaces it. */
  lemma {:induction false} ChannelStays(steps: seq<Step>, more: seq<Step>, t: Topic)
    requires t in After(steps).channels && Drop !in more
    ensures t in After(steps + more).channels && After(steps + more).channels[t] == After(steps).channels[t]
    decreases |more|
  {
    if more == [] {
      assert steps + more == steps;
    } else {
      var n := |more| - 1;
      ChannelStays(steps, more[..n], t);
      AfterPush(steps, more);
      NextKeepsChannel(After(steps + more[..n]), more[n], t);
    }
  }

  lemma AfterPush(steps: seq<Step>, more: seq<Step>)
    requires more != []
    ensures After(steps + more) == Next(After(steps + more[..|more| - 1]), more[|more| - 1])
  {
    InitOfConcat(steps, more);
  }

  lemma NextKeepsChannel(s: State, step: Step, t: Topic)
    requires t in s.channels && step != Drop
    ensures t in Next(s, step).channels && Next(s, step).channels[t] == s.channels[t]
  {}

  // ---- what callers asked for

  /** A send can begin whenever the thread is in no other call, and then is a call on exactly the caller's topic, with
      exactly the caller's envelope and the topic's channel.  The queues and records stay as they are. */
  lemma SendBegins(s: State, tid: Tid, t: Topic, e: Envelope)
    ensures Enabled(s, LookupSend(tid, t, e)) <==> s.alive && PcOf(s, tid).Idle?
    ensures s.alive && PcOf(s, tid).Idle? ==>
      var s' := Apply(s, LookupSend(tid, t, e));
      && t in s'.channels && PcOf(s', tid) == SendLooked(t, e, s'.channels[t])
      && s'.pushed == s.pushed && s'.popped == s.popped && OthersKept(s, s', tid)
  {}

  /** The same of a receive. */
  lemma ReceiveBegins(s: State, tid: Tid, t: Topic)
    ensures Enabled(s, LookupRecv(tid, t)) <==> s.alive && PcOf(s, tid).Idle?
    ensures s.alive && PcOf(s, tid).Idle? ==>
      var s' := Apply(s, LookupRecv(tid, t));
      && t in s'.channels && PcOf(s', tid) == RecvLooked(t, s'.channels[t])
      && s'.pushed == s.pushed && s'.popped == s.popped && OthersKept(s, s', tid)
  {}

  /** Other threads' calls are as they were. */
  ghost predicate OthersKept(s: State, s': State, tid: Tid) {
    forall other :: other != tid ==> PcOf(s', other) == PcOf(s, other)
  }

  /** A call, once begun, stays on its topic and keeps its envelope until its own thread ends it. */
  lemma CallKept(steps: seq<Step>, step: Step, tid: Tid)
    ensures var pc, pc' := PcOf(After(steps), tid), PcOf(After(steps + [step]), tid);
      && (pc.SendLooked? ==> pc' == pc || (step == Push(tid) && pc'.Idle?))
      && (pc.RecvLooked? || pc.RecvLocked? ==>
            || pc' == pc || (step == Lock(tid) && pc' == RecvLocked(pc.topic, pc.c)) || (step == Pop(tid) && pc'.Idle?))
  {
    var s := After(steps);
    OneMore(steps, step);
    NeverNone(steps, tid);
  }

  /** The number of sends of an envelope on a topic that callers have begun. */
  ghost function SendsBegun(steps: seq<Step>, t: Topic, e: Envelope): nat {
    if steps == [] then 0
    else
      var init, step := steps[..|steps| - 1], steps[|steps| - 1];
      SendsBegun(init, t, e)
        + if step.LookupSend? && step.topic == t && step.envelope == e && Enabled(After(init), step) then 1 else 0
  }

  /** The number of receives on a topic that callers have begun. */
  ghost function ReceivesBegun(steps: seq<Step>, t: Topic): nat {
    if steps == [] then 0
    else
      var init, step := steps[..|steps| - 1], steps[|steps| - 1];
      ReceivesBegun(init, t) + if step.LookupRecv? && step.topic == t && Enabled(After(init), step) then 1 else 0
  }

  predicate SendsOn(pc: Pc, t: Topic, e: Envelope) {
    pc.SendLooked? && pc.topic == t && pc.envelope == e
  }

  predicate ReceivesOn(pc: Pc, t: Topic) {
    (pc.RecvLooked? || pc.RecvLocked?) && pc.topic == t
  }

  /** The threads whose calls satisfy a predicate. */
  function Those(threads: map<Tid, Pc>, p: Pc -> bool): set<Tid> {
    set tid | tid in threads && p(threads[tid])
  }

  /** The sends of an envelope on a topic that are in progress. */
  function Sending(threads: map<Tid, Pc>, t: Topic, e: Envelope): nat {
    |Those(threads, pc => SendsOn(pc, t, e))|
  }

  /** The receives on a topic that are in progress. */
  function Receiving(threads: map<Tid, Pc>, t: Topic): nat {
    |Those(threads, pc => ReceivesOn(pc, t))|
  }

  lemma ThoseUpdated(threads: map<Tid, Pc>, tid: Tid, pc: Pc, p: Pc -> bool)
    ensures |Those(threads[tid := pc], p)| + (if tid in threads && p(threads[tid]) then 1 else 0)
      == |Those(threads, p)| + (if p(pc) then 1 else 0)
  {
    var m := threads[tid := pc];
    ThoseSplit(m, tid, p);
    assert m - {tid} == threads - {tid};
    if tid in threads {
      ThoseSplit(threads, tid, p);
    } else {
      assert threads - {tid} == threads;
    }
  }

  lemma ThoseSplit(threads: map<Tid, Pc>, tid: Tid, p: Pc -> bool)
    requires tid in threads
    ensures |Those(threads, p)| == |Those(threads - {tid}, p)| + if p(threads[tid]) then 1 else 0
  {
    if p(threads[tid]) {
      assert Those(threads, p) == Those(threads - {tid}, p) + {tid};
    } else {
      assert Those(threads, p) == Those(threads - {tid}, p);
    }
  }

  lemma SendingUpdated(threads: map<Tid, Pc>, tid: Tid, pc: Pc, t: Topic, e: Envelope)
    ensures Sending(threads[tid := pc], t, e) + (if tid in threads && SendsOn(threads[tid], t, e) then 1 else 0)
      == Sending(threads, t, e) + (if SendsOn(pc, t, e) then 1 else 0)
  {
    var p := (pc: Pc) => SendsOn(pc, t, e);
    ThoseUpdated(threads, tid, pc, p);
    assert Those(threads, p) == Those(threads, pc => SendsOn(pc, t, e));
    assert Those(threads[tid := pc], p) == Those(threads[tid := pc], pc => SendsOn(pc, t, e));
  }

  lemma ReceivingUpdated(threads: map<Tid, Pc>, tid: Tid, pc: Pc, t: Topic)
    ensures Receiving(threads[tid := pc], t) + (if tid in threads && ReceivesOn(threads[tid], t) then 1 else 0)
      == Receiving(threads, t) + (if ReceivesOn(pc, t) then 1 else 0)
  {
    var p := (pc: Pc) => ReceivesOn(pc, t);
    ThoseUpdated(threads, tid, pc, p);
    assert Those(threads, p) == Those(threads, pc => ReceivesOn(pc, t));
    assert Those(threads[tid := pc], p) == Those(threads[tid := pc], pc => ReceivesOn(pc, t));
  }

  lemma CountPush(a: seq<Envelope>, x: Envelope, e: Envelope)
    ensures multiset(a + [x])[e] == multiset(a)[e] + if x == e then 1 else 0
  {}

  /** Nothing is lost, made up or put on another topic: of every envelope, as many are pushed on a topic or on their way
      there as callers have sent on it. */
  lemma {:induction false} SentIsPushedOrInFlight(steps: seq<Step>, t: Topic, e: Envelope)
    ensures var s := After(steps);
      multiset(At(s.pushed, t))[e] + Sending(s.threads, t, e) == SendsBegun(steps, t, e)
  {
    if steps == [] {
      assert After(steps) == Init() && Those(map[], pc => SendsOn(pc, t, e)) == {};
    } else {
      var n := |steps| - 1;
      SentIsPushedOrInFlight(steps[..n], t, e);
      RunKeepsInv(steps[..n]);
      if Enabled(After(steps[..n]), steps[n]) {
        SendCounted(After(steps[..n]), steps[n], t, e);
      }
    }
  }

  lemma SendCounted(s: State, step: Step, t: Topic, e: Envelope)
    requires Inv(s) && Enabled(s, step)
    ensures var s' := Apply(s, step);
      multiset(At(s'.pushed, t))[e] + Sending(s'.threads, t, e)
        == multiset(At(s.pushed, t))[e] + Sending(s.threads, t, e)
          + if step.LookupSend? && step.topic == t && step.envelope == e then 1 else 0
  {
    if !step.Drop? {
      SendingUpdated(s.threads, step.tid, PcOf(Apply(s, step), step.tid), t, e);
    }
    if step.Push? {
      var pc := s.threads[step.tid];
      CountPush(At(s.pushed, pc.topic), pc.envelope, e);
    }
  }

  /** Every receive that callers have begun on a topic has returned one of its messages or is in progress there. */
  lemma {:induction false} ReceivedOrReceiving(steps: seq<Step>, t: Topic)
    ensures var s := After(steps); |At(s.popped, t)| + Receiving(s.threads, t) == ReceivesBegun(steps, t)
  {
    if steps == [] {
      assert After(steps) == Init() && Those(map[], pc => ReceivesOn(pc, t)) == {};
    } else {
      var n := |steps| - 1;
      ReceivedOrReceiving(steps[..n], t);
      RunKeepsInv(steps[..n]);
      if Enabled(After(steps[..n]), steps[n]) {
        ReceiveCounted(After(steps[..n]), steps[n], t);
      }
    }
  }

  lemma ReceiveCounted(s: State, step: Step, t: Topic)
    requires Inv(s) && Enabled(s, step)
    ensures var s' := Apply(s, step);
      |At(s'.popped, t)| + Receiving(s'.threads, t) == |At(s.popped, t)| + Receiving(s.threads, t)
        + if step.LookupRecv? && step.topic == t then 1 else 0
  {
    if !step.Drop? {
      NoDisconnect(s, step.tid);
      ReceivingUpdated(s.threads, step.tid, PcOf(Apply(s, step), step.tid), t);
    }
  }
}
