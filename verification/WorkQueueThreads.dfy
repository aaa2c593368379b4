/** The accepting thread and the workers around the bounded queue (lab 16, part 2,
    server 3), one step per stretch of code that holds the mutex. A signal wakes
    one sleeper; a sleeper may also wake for no reason. */
module WorkQueueThreads {

  datatype Producer =
    | Accepting
    | Pushing(fd: int)   // about to lock the mutex
    | Waiting(fd: int)   // asleep on not_full
    | Rechecking(fd: int) // woken, has not looked at the queue again

  datatype Consumer =
    | Popping            // about to lock the mutex
    | Dozing             // asleep on not_empty
    | Roused             // woken, has not looked at the queue again
    | Serving(fd: int)

  datatype State = State(
    capacity: nat,
    queue: seq<int>,
    producer: Producer,
    consumers: seq<Consumer>,
    accepted: seq<int>,  // every descriptor the accepting thread obtained
    popped: seq<int>)    // every descriptor handed to a worker, in order

  datatype Action =
    | Accept(fd: int)
    | Push(wake: nat)    // `wake` is the sleeper a signal picks, if there is one
    | Pop(consumer: nat)
    | Finish(consumer: nat)
    | WakeConsumer(consumer: nat)
    | WakeProducer

  ghost predicate SomebodyDozes(consumers: seq<Consumer>) {
    exists i | 0 <= i < |consumers| :: consumers[i].Dozing?
  }

  /** pthread_cond_signal(not_empty). */
  ghost predicate Signalled(before: seq<Consumer>, wake: nat, after: seq<Consumer>) {
    if SomebodyDozes(before) then
      wake < |before| && before[wake].Dozing? && after == before[wake := Roused]
    else
      after == before
  }

  /** pthread_cond_signal(not_full). */
  function SignalProducer(p: Producer): Producer {
    if p.Waiting? then Rechecking(p.fd) else p
  }

  ghost predicate Init(s: State) {
    && s.capacity >= 1 && |s.consumers| >= 1
    && s.queue == [] && s.producer == Accepting && s.accepted == [] && s.popped == []
    && forall i | 0 <= i < |s.consumers| :: s.consumers[i] == Popping
  }

  ghost predicate Next(s: State, a: Action, s': State) {
    match a
    case Accept(fd) =>
      && s.producer.Accepting?
      && s' == s.(producer := Pushing(fd), accepted := s.accepted + [fd])
    case Push(wake) =>
      && (s.producer.Pushing? || s.producer.Rechecking?)
      && if |s.queue| == s.capacity then
           s' == s.(producer := Waiting(s.producer.fd))
         else
           && s' == s.(producer := Accepting, queue := s.queue + [s.producer.fd],
                       consumers := s'.consumers)
           && Signalled(s.consumers, wake, s'.consumers)
    case Pop(c) =>
      && c < |s.consumers| && (s.consumers[c].Popping? || s.consumers[c].Roused?)
      && if s.queue == [] then
           s' == s.(consumers := s.consumers[c := Dozing])
         else
           s' == s.(consumers := s.consumers[c := Serving(s.queue[0])],
                    queue := s.queue[1..], popped := s.popped + [s.queue[0]],
                    producer := SignalProducer(s.producer))
    case Finish(c) =>
      && c < |s.consumers| && s.consumers[c].Serving?
      && s' == s.(consumers := s.consumers[c := Popping])
    case WakeConsumer(c) =>
      && c < |s.consumers| && s.consumers[c].Dozing?
      && s' == s.(consumers := s.consumers[c := Roused])
    case WakeProducer =>
      && s.producer.Waiting?
      && s' == s.(producer := Rechecking(s.producer.fd))
  }

  // ---- invariants

  function RousedCount(consumers: seq<Consumer>): nat {
    if consumers == [] then 0
    else (if consumers[0].Roused? then 1 else 0) + RousedCount(consumers[1..])
  }

  /** The descriptor accepted but not yet in the queue. */
  function InHand(p: Producer): seq<int> {
    if p.Accepting? then [] else [p.fd]
  }

  /** Nobody sleeps past a signal: queued descriptors are covered by workers already
      woken for them, and the accepting thread sleeps only on a full queue. */
  ghost predicate NoLostWakeup(s: State) {
    && (SomebodyDozes(s.consumers) ==> |s.queue| <= RousedCount(s.consumers))
    && (s.producer.Waiting? ==> |s.queue| == s.capacity)
  }

  /** Every accepted descriptor is handed out, queued or in hand: once, in order. */
  ghost predicate ExactlyOnce(s: State) {
    s.accepted == s.popped + s.queue + InHand(s.producer)
  }

  ghost predicate Inv(s: State) {
    && s.capacity >= 1 && |s.consumers| >= 1 && |s.queue| <= s.capacity
    && NoLostWakeup(s) && ExactlyOnce(s)
  }

  lemma {:induction false} RousedUpdate(consumers: seq<Consumer>, c: nat, x: Consumer)
    requires c < |consumers|
    ensures RousedCount(consumers[c := x]) ==
            RousedCount(consumers) - (if consumers[c].Roused? then 1 else 0) + (if x.Roused? then 1 else 0)
    decreases |consumers|
  {
    if c == 0 {
      assert consumers[c := x][1..] == consumers[1..];
    } else {
      assert consumers[c := x][1..] == consumers[1..][c - 1 := x];
      RousedUpdate(consumers[1..], c - 1, x);
    }
  }

  lemma {:induction false} NoneRoused(consumers: seq<Consumer>)
    requires forall i | 0 <= i < |consumers| :: !consumers[i].Roused?
    ensures RousedCount(consumers) == 0
    decreases |consumers|
  {
    if consumers != [] {
      NoneRoused(consumers[1..]);
    }
  }

  lemma PushKeepsInv(s: State, wake: nat, s': State)
    requires Inv(s) && Next(s, Push(wake), s')
    ensures Inv(s')
  {
    if |s.queue| < s.capacity {
      if SomebodyDozes(s.consumers) {
        RousedUpdate(s.consumers, wake, Roused);
      }
      assert s.popped + s.queue + [s.producer.fd] == s.popped + (s.queue + [s.producer.fd]) + [];
    }
  }

  lemma PopKeepsInv(s: State, c: nat, s': State)
    requires Inv(s) && Next(s, Pop(c), s')
    ensures Inv(s')
  {
    RousedUpdate(s.consumers, c, s'.consumers[c]);
    if s.queue != [] {
      assert SomebodyDozes(s'.consumers) ==> SomebodyDozes(s.consumers) by {
        assert forall i | 0 <= i < |s.consumers| && i != c :: s'.consumers[i] == s.consumers[i];
      }
      assert s.popped + s.queue == (s.popped + [s.queue[0]]) + s.queue[1..];
    }
  }

  lemma InvHolds(s: State, a: Action, s': State)
    requires Inv(s) && Next(s, a, s')
    ensures Inv(s') && s'.capacity == s.capacity && |s'.consumers| == |s.consumers|
  {
    match a
    case Push(wake) => PushKeepsInv(s, wake, s');
    case Pop(c) => PopKeepsInv(s, c, s');
    case Accept(fd) => assert s.popped + s.queue + [] + [fd] == s.popped + s.queue + [fd];
    case Finish(c) =>
      RousedUpdate(s.consumers, c, Popping);
      assert forall i | 0 <= i < |s.consumers| && i != c :: s'.consumers[i] == s.consumers[i];
    case WakeConsumer(c) => RousedUpdate(s.consumers, c, Roused);
    case WakeProducer =>
  }

  // ---- whole runs

  ghost predicate Run(states: seq<State>, actions: seq<Action>) {
    && |states| == |actions| + 1 && Init(states[0])
    && forall i | 0 <= i < |actions| :: Next(states[i], actions[i], states[i + 1])
  }

  lemma {:induction false} RunKeepsInv(states: seq<State>, actions: seq<Action>, k: nat)
    requires Run(states, actions) && k < |states|
    ensures Inv(states[k])
  {
    if k == 0 {
      NoneRoused(states[0].consumers);
    } else {
      RunKeepsInv(states, actions, k - 1);
      InvHolds(states[k - 1], actions[k - 1], states[k]);
    }
  }

  /** The accepting thread and all the workers are never asleep together, and a
      non-empty queue always has a worker that is awake. */
  lemma NeverAllAsleep(states: seq<State>, actions: seq<Action>, k: nat)
    requires Run(states, actions) && k < |states|
    ensures states[k].queue != [] || states[k].producer.Waiting? ==>
            exists c | 0 <= c < |states[k].consumers| :: !states[k].consumers[c].Dozing?
  {
    RunKeepsInv(states, actions, k);
    var s := states[k];
    if forall c | 0 <= c < |s.consumers| :: s.consumers[c].Dozing? {
      NoneRoused(s.consumers);
      assert s.consumers[0].Dozing?;
    }
  }

  ghost predicate AllServing(s: State) {
    forall i | 0 <= i < |s.consumers| :: s.consumers[i].Serving?
  }

  /** Nothing inside the program moves: every worker waits for its client, and the accepting
      thread for a connection or for room. */
  ghost predicate Stalled(s: State) {
    AllServing(s) && (s.producer.Accepting? || s.producer.Waiting?)
  }

  lemma PopEnabled(s: State, c: nat)
    requires c < |s.consumers| && (s.consumers[c].Popping? || s.consumers[c].Roused?)
    ensures exists a: Action, s': State :: Next(s, a, s') && a.Pop?
  {
    if s.queue == [] {
      assert Next(s, Pop(c), s.(consumers := s.consumers[c := Dozing]));
    } else {
      assert Next(s, Pop(c), s.(consumers := s.consumers[c := Serving(s.queue[0])],
                                queue := s.queue[1..], popped := s.popped + [s.queue[0]],
                                producer := SignalProducer(s.producer)));
    }
  }

  lemma PushEnabled(s: State)
    requires s.producer.Pushing? || s.producer.Rechecking?
    ensures exists a: Action, s': State :: Next(s, a, s') && a.Push?
  {
    var pushed := s.(producer := Accepting, queue := s.queue + [s.producer.fd]);
    if |s.queue| == s.capacity {
      assert Next(s, Push(0), s.(producer := Waiting(s.producer.fd)));
    } else if SomebodyDozes(s.consumers) {
      var wake :| 0 <= wake < |s.consumers| && s.consumers[wake].Dozing?;
      assert Next(s, Push(wake), pushed.(consumers := s.consumers[wake := Roused]));
    } else {
      assert Next(s, Push(0), pushed);
    }
  }

  /** While an accepted descriptor has not been handed out, the program can move without its
      clients exactly when it is not stalled: no signal is ever the thing that is missing. A
      worker that serves waits for its client to send something, so that is outside help. */
  lemma StallsExactly(states: seq<State>, actions: seq<Action>, k: nat)
    requires Run(states, actions) && k < |states|
    requires states[k].accepted != states[k].popped
    ensures (exists a: Action, s': State :: Next(states[k], a, s') && (a.Push? || a.Pop?)) <==>
            !Stalled(states[k])
  {
    RunKeepsInv(states, actions, k);
    var s := states[k];
    if s.producer.Pushing? || s.producer.Rechecking? {
      PushEnabled(s);
    } else if c: nat :| c < |s.consumers| && (s.consumers[c].Popping? || s.consumers[c].Roused?) {
      PopEnabled(s, c);
    } else {
      NoneRoused(s.consumers);
      assert s.queue != [];
    }
  }

  lemma Extended(states: seq<State>, actions: seq<Action>, a: Action, s': State)
    requires Run(states, actions) && Next(states[|actions|], a, s')
    ensures Run(states + [s'], actions + [a])
  {
  }

  /** Clients that connect and stay silent tie up one worker each. */
  lemma {:induction false} TiedUp(start: State, c: nat) returns (states: seq<State>, actions: seq<Action>)
    requires Init(start) && c <= |start.consumers|
    ensures Run(states, actions) && states[0] == start
    ensures var s := states[|actions|];
            && |s.consumers| == |start.consumers| && s.capacity == start.capacity
            && s.queue == [] && s.producer == Accepting && s.accepted == s.popped
            && (forall i | 0 <= i < c :: s.consumers[i].Serving?)
            && (forall i | c <= i < |s.consumers| :: s.consumers[i] == Popping)
  {
    if c == 0 {
      states, actions := [start], [];
    } else {
      states, actions := TiedUp(start, c - 1);
      var s := states[|actions|];
      var s1 := s.(producer := Pushing(c), accepted := s.accepted + [c]);
      var s2 := s1.(producer := Accepting, queue := [c]);
      var s3 := s2.(consumers := s.consumers[c - 1 := Serving(c)], queue := [], popped := s.popped + [c]);
      Extended(states, actions, Accept(c), s1);
      states, actions := states + [s1], actions + [Accept(c)];
      assert Next(s1, Push(0), s2);
      Extended(states, actions, Push(0), s2);
      states, actions := states + [s2], actions + [Push(0)];
      Extended(states, actions, Pop(c - 1), s3);
      states, actions := states + [s3], actions + [Pop(c - 1)];
    }
  }

  /** Any pool of workers can stall with a descriptor still queued: as many silent clients as
      there are workers, and one client more. */
  lemma SilentClientsStall(start: State) returns (states: seq<State>, actions: seq<Action>)
    requires Init(start)
    ensures Run(states, actions) && states[0] == start
    ensures Stalled(states[|actions|]) && states[|actions|].queue != []
    ensures forall a: Action, s': State :: Next(states[|actions|], a, s') ==> a.Accept? || a.Finish?
  {
    states, actions := TiedUp(start, |start.consumers|);
    var s := states[|actions|];
    var s1 := s.(producer := Pushing(0), accepted := s.accepted + [0]);
    var s2 := s1.(producer := Accepting, queue := [0]);
    Extended(states, actions, Accept(0), s1);
    states, actions := states + [s1], actions + [Accept(0)];
    assert Next(s1, Push(0), s2);
    Extended(states, actions, Push(0), s2);
    states, actions := states + [s2], actions + [Push(0)];
  }

  /** What the workers have been given is exactly what was accepted, in order, up to
      the at most `capacity` + 1 descriptors still on the way. */
  lemma HandedOutInOrder(states: seq<State>, actions: seq<Action>, k: nat)
    requires Run(states, actions) && k < |states|
    ensures states[k].popped <= states[k].accepted
    ensures |states[k].accepted| <= |states[k].popped| + states[k].capacity + 1
    ensures states[k].accepted[|states[k].popped|..] == states[k].queue + InHand(states[k].producer)
  {
    RunKeepsInv(states, actions, k);
  }
}
