/** The driver process of taxi-cli: a loop over poll, read and dispatch that shares
    `g_timer_done` and `g_need_stop` with its signal handlers. Each step of the loop
    is one test or one assignment to a shared or checked variable (a test that leads
    straight to an assignment counts with it), so that signals can arrive in between. */
module TaxiDriver {
  import opened Options

  datatype Command = Task(timer: int) | Status | Exit | Unknown

  datatype Answer = Ok(timer: int) | Available | Busy(left: int) | Error

  /** Where the `if (g_timer_done)` block returns to: it stands before poll and after read. */
  datatype Resume = ToPoll | ToDispatch(command: Command)

  datatype Pc =
    | LoopHead
    | TestDone(resume: Resume)
    | ClearDone(resume: Resume)   // about to run g_timer_done = 0
    | ClearBusy(resume: Resume)   // about to run is_busy = 0
    | ClearUntil(resume: Resume)  // about to run busy_until = 0
    | Polling
    | Reading
    | Dispatch(command: Command)
    | SetUntil(timer: int)        // is_busy is already 1
    | SetAlarm(timer: int)
    | Answering(answer: Answer)
    | Stopped

  datatype Event = Arm(task: int) | Fire(task: int) | Free(task: int)

  /** From `started` on the fields only record what happened. */
  datatype State = State(
    pc: Pc,
    isBusy: bool,
    busyUntil: int,
    timerDone: bool,
    needStop: bool,
    alarm: Option<int>,  // the task whose alarm is pending
    now: int,
    started: nat,        // tasks accepted so far; the latest has number started - 1
    timer: int,          // timer of the latest task
    acceptedAt: int,     // clock when its busy_until was computed
    log: seq<Event>,
    okAt: seq<nat>,      // length of the log when the k-th OK was sent
    received: seq<Command>,
    sent: seq<Answer>)

  function SecondsLeft(busyUntil: int, now: int): int {
    if busyUntil <= now then 0 else busyUntil - now
  }

  /** What the system calls of one step return. */
  datatype Input = Nothing | Interrupted | Hangup | Readable | Received(command: Command)

  predicate Enabled(pc: Pc, input: Input) {
    match pc
    case Polling => input.Nothing? || input.Interrupted? || input.Hangup? || input.Readable?
    case Reading => input.Hangup? || input.Received?
    case Stopped => false
    case _ => input.Nothing?
  }

  function After(resume: Resume): Pc {
    match resume
    case ToPoll => Polling
    case ToDispatch(command) => Dispatch(command)
  }

  /** alarm(seconds): an argument of 0 asks for no alarm. */
  function AlarmFor(timer: int, task: int): Option<int> {
    if timer == 0 then None else Some(task)
  }

  /** One step of driver_loop itself. */
  function Step(s: State, input: Input): State
    requires Enabled(s.pc, input)
  {
    match s.pc
    case LoopHead => s.(pc := if s.needStop then Stopped else TestDone(ToPoll))
    case TestDone(resume) => s.(pc := if s.timerDone then ClearDone(resume) else After(resume))
    case ClearDone(resume) => s.(pc := ClearBusy(resume), timerDone := false)
    case ClearBusy(resume) =>
      s.(pc := ClearUntil(resume), isBusy := false, log := s.log + [Free(s.started - 1)])
    case ClearUntil(resume) => s.(pc := After(resume), busyUntil := 0)
    case Polling =>
      s.(pc := if input.Hangup? then Stopped else if input.Readable? then Reading else LoopHead)
    case Reading =>
      if input.Received? then
        s.(pc := TestDone(ToDispatch(input.command)), received := s.received + [input.command])
      else s.(pc := Stopped)
    case Dispatch(command) =>
      (match command
       case Task(timer) =>
         if s.isBusy then s.(pc := Answering(Busy(SecondsLeft(s.busyUntil, s.now))))
         else s.(pc := SetUntil(timer), isBusy := true, started := s.started + 1, timer := timer)
       case Status =>
         s.(pc := Answering(if s.isBusy then Busy(SecondsLeft(s.busyUntil, s.now)) else Available))
       case Exit => s.(pc := Stopped)
       case Unknown => s.(pc := Answering(Error)))
    case SetUntil(timer) =>
      s.(pc := SetAlarm(timer), busyUntil := s.now + timer, acceptedAt := s.now)
    case SetAlarm(timer) =>
      s.(pc := Answering(Ok(timer)), alarm := AlarmFor(timer, s.started - 1),
         log := s.log + [Arm(s.started - 1)])
    case Answering(answer) =>
      s.(pc := LoopHead, okAt := if answer.Ok? then s.okAt + [|s.log|] else s.okAt,
         sent := s.sent + [answer])
    case Stopped => s
  }

  datatype Action =
    | Own(input: Input)
    | AlarmSignal
    | StopSignal
    | Tick(now: int)

  ghost predicate Next(s: State, a: Action, s': State) {
    match a
    case Own(input) => Enabled(s.pc, input) && s' == Step(s, input)
    case AlarmSignal =>
      s.alarm.Some? && s' == s.(alarm := None, timerDone := true, log := s.log + [Fire(s.alarm.value)])
    case StopSignal => s' == s.(needStop := true)
    case Tick(now) => s.now <= now && s' == s.(now := now)
  }

  ghost predicate Init(s: State) {
    && s.pc == LoopHead && !s.isBusy && s.busyUntil == 0 && !s.timerDone && !s.needStop
    && s.alarm == None && s.started == 0 && s.log == [] && s.okAt == []
    && s.received == [] && s.sent == []
  }

  // ---- the driver's code, run without a signal in between

  function Quietly(s: State, steps: nat): State
    decreases steps
  {
    if steps == 0 || !Enabled(s.pc, Nothing) then s else Quietly(Step(s, Nothing), steps - 1)
  }

  lemma {:induction false} QuietlyOneMore(s: State, steps: nat)
    requires Enabled(Quietly(s, steps).pc, Nothing)
    ensures Quietly(s, steps + 1) == Step(Quietly(s, steps), Nothing)
    decreases steps
  {
    if steps > 0 && Enabled(s.pc, Nothing) {
      QuietlyOneMore(Step(s, Nothing), steps - 1);
    } else if steps == 0 {
      assert Quietly(s, 1) == Quietly(Step(s, Nothing), 0);
    }
  }

  /** The variables of the driver process and its pending alarm. */
  class Driver {
    var isBusy: bool
    var busyUntil: int
    var timerDone: bool
    var alarmPending: bool

    constructor ()
      ensures !isBusy && busyUntil == 0 && !timerDone && !alarmPending
    {
      isBusy, busyUntil, timerDone, alarmPending := false, 0, false, false;
    }

    ghost predicate Matches(s: State)
      reads this
    {
      isBusy == s.isBusy && busyUntil == s.busyUntil && timerDone == s.timerDone
      && alarmPending == s.alarm.Some?
    }

    /** The block that stands before poll and again after read. */
    method ClearIfDone(ghost s: State) returns (ghost steps: nat)
      requires Matches(s) && s.pc.TestDone?
      modifies this
      ensures steps == (if old(timerDone) then 4 else 1)
      ensures Matches(Quietly(s, steps)) && Quietly(s, steps).pc == After(s.pc.resume)
      ensures Quietly(s, steps).(log := s.log) ==
              s.(pc := After(s.pc.resume), timerDone := false,
                 isBusy := isBusy, busyUntil := busyUntil)
    {
      QuietlyOneMore(s, 0);
      steps := 1;
      if timerDone {
        timerDone, isBusy, busyUntil := false, false, 0;
        QuietlyOneMore(s, 1);
        QuietlyOneMore(s, 2);
        QuietlyOneMore(s, 3);
        steps := 4;
      }
    }

    /** From a received command to the answer: the same as the single steps in a row. */
    method ServeCommand(command: Command, now: int, ghost s: State)
        returns (answer: Option<Answer>, ghost steps: nat)
      requires Matches(s) && s.now == now && s.pc == TestDone(ToDispatch(command))
      modifies this
      ensures Matches(Quietly(s, steps))
      ensures answer.None? <==> command.Exit?
      ensures Quietly(s, steps).pc == if answer.None? then Stopped else Answering(answer.value)
    {
      steps := ClearIfDone(s);
      QuietlyOneMore(s, steps);
      ghost var dispatched := Quietly(s, steps);
      match command {
        case Task(timer) =>
          if isBusy {
            answer := Some(Busy(SecondsLeft(busyUntil, now)));
          } else {
            isBusy := true;
            busyUntil := now + timer;
            QuietlyOneMore(s, steps + 1);
            alarmPending := timer != 0;
            QuietlyOneMore(s, steps + 2);
            steps := steps + 2;
            answer := Some(Ok(timer));
          }
        case Status =>
          answer := Some(if isBusy then Busy(SecondsLeft(busyUntil, now)) else Available);
        case Exit => answer := None;
        case Unknown => answer := Some(Error);
      }
      steps := steps + 1;
    }
  }

  // ---- the invariant

  /** Every point of the loop except inside its two assignment blocks. */
  predicate LoopStable(pc: Pc) {
    !pc.SetUntil? && !pc.SetAlarm? && !pc.ClearBusy?
  }

  /** Task k is armed, fires and is freed, in this order, before task k + 1 is armed. */
  function Cycle(i: nat): Event {
    if i % 3 == 0 then Arm(i / 3) else if i % 3 == 1 then Fire(i / 3) else Free(i / 3)
  }

  ghost predicate InOrder(log: seq<Event>) {
    forall i | 0 <= i < |log| :: log[i] == Cycle(i)
  }

  /** How far the log is, read off the driver's variables. */
  function Progress(s: State): int {
    if s.pc.SetUntil? || s.pc.SetAlarm? then 3 * s.started - 3
    else if s.alarm.Some? then 3 * s.started - 2
    else if s.timerDone || s.pc.ClearBusy? then 3 * s.started - 1
    else 3 * s.started
  }

  ghost predicate TimerOk(s: State) {
    && !(s.alarm.Some? && s.timerDone)
    && (LoopStable(s.pc) ==> (s.isBusy <==> s.alarm.Some? || s.timerDone))
    && (!LoopStable(s.pc) ==> s.isBusy && s.alarm.None? && !s.timerDone)
    && (s.pc.ClearDone? ==> s.timerDone)
    && (s.pc.ClearUntil? ==> !s.isBusy)
    && (s.alarm.Some? ==> s.alarm.value == s.started - 1)
    && (s.isBusy ==> s.started > 0)
  }

  ghost predicate AnswersOk(s: State) {
    && |s.okAt| == (if s.pc.SetUntil? || s.pc.SetAlarm? || (s.pc.Answering? && s.pc.answer.Ok?)
                    then s.started - 1 else s.started)
    && (forall k | 0 <= k < |s.okAt| :: 3 * k + 1 <= s.okAt[k] <= 3 * k + 2)
    && (s.pc.Answering? && s.pc.answer.Ok? ==> s.isBusy)
    && (s.isBusy && !s.pc.SetUntil? ==> s.busyUntil == s.acceptedAt + s.timer && s.acceptedAt <= s.now)
    && (s.pc.SetUntil? ==> s.pc.timer == s.timer)
    && (s.pc.SetAlarm? ==> s.pc.timer == s.timer)
  }

  ghost predicate Inv(s: State) {
    && TimerOk(s) && AnswersOk(s)
    && InOrder(s.log) && |s.log| == Progress(s)
  }

  lemma InOrderAppend(log: seq<Event>, e: Event)
    requires InOrder(log) && e == Cycle(|log|)
    ensures InOrder(log + [e])
  {
  }

  lemma OwnStepTimer(s: State, input: Input)
    requires TimerOk(s) && Enabled(s.pc, input)
    ensures TimerOk(Step(s, input)) <==> !(s.pc.SetAlarm? && s.pc.timer == 0)
  {
  }

  lemma OwnStepAnswers(s: State, input: Input)
    requires Inv(s) && Enabled(s.pc, input)
    ensures AnswersOk(Step(s, input))
  {
  }

  lemma OwnStepLog(s: State, input: Input)
    requires TimerOk(s) && InOrder(s.log) && |s.log| == Progress(s) && Enabled(s.pc, input)
    requires !(s.pc.SetAlarm? && s.pc.timer == 0)
    ensures InOrder(Step(s, input).log) && |Step(s, input).log| == Progress(Step(s, input))
  {
    if s.pc.SetAlarm? {
      InOrderAppend(s.log, Arm(s.started - 1));
    } else if s.pc.ClearBusy? {
      InOrderAppend(s.log, Free(s.started - 1));
    }
  }

  /** The only step that can spoil the invariant is arming with a timer of 0. */
  lemma OwnStepExact(s: State, input: Input)
    requires Inv(s) && Enabled(s.pc, input)
    ensures Inv(Step(s, input)) <==> !(s.pc.SetAlarm? && s.pc.timer == 0)
  {
    OwnStepTimer(s, input);
    OwnStepAnswers(s, input);
    if !(s.pc.SetAlarm? && s.pc.timer == 0) {
      OwnStepLog(s, input);
    }
  }

  lemma SignalsKeepInv(s: State, a: Action, s': State)
    requires Inv(s) && Next(s, a, s') && !a.Own?
    ensures Inv(s')
  {
  }

  lemma StepExact(s: State, a: Action, s': State)
    requires Inv(s) && Next(s, a, s')
    ensures Inv(s') <==> !(a.Own? && s.pc == SetAlarm(0))
  {
    if a.Own? {
      OwnStepExact(s, a.input);
    } else {
      SignalsKeepInv(s, a, s');
    }
  }

  // ---- whole runs

  ghost predicate Chain(states: seq<State>, actions: seq<Action>) {
    && |states| == |actions| + 1
    && forall i | 0 <= i < |actions| :: Next(states[i], actions[i], states[i + 1])
  }

  ghost predicate Run(states: seq<State>, actions: seq<Action>) {
    Chain(states, actions) && Init(states[0])
  }

  lemma Joined(a: seq<State>, first: seq<Action>, b: seq<State>, second: seq<Action>)
    requires Chain(a, first) && Chain(b, second) && a[|first|] == b[0]
    ensures Chain(a + b[1..], first + second)
    ensures (a + b[1..])[|first + second|] == b[|second|] && (a + b[1..])[0] == a[0]
  {
    var states, actions := a + b[1..], first + second;
    forall i | 0 <= i < |actions| ensures Next(states[i], actions[i], states[i + 1]) {
      assert i >= |first| ==> states[i] == b[i - |first|] && states[i + 1] == b[i - |first| + 1];
    }
  }

  lemma Extended(states: seq<State>, actions: seq<Action>, a: Action, s': State)
    requires Run(states, actions) && Next(states[|actions|], a, s')
    ensures Run(states + [s'], actions + [a])
  {
  }

  /** The first n steps never call alarm(0). */
  ghost predicate NeverArmsZero(states: seq<State>, actions: seq<Action>, n: nat)
    requires n <= |actions| < |states|
  {
    forall i | 0 <= i < n :: actions[i].Own? ==> states[i].pc != SetAlarm(0)
  }

  /** Every reachable state, whatever the signals did: the invariant holds throughout a run if
      and only if alarm(0) is never called. */
  lemma {:induction false} RunExact(states: seq<State>, actions: seq<Action>, n: nat)
    requires Run(states, actions) && n <= |actions|
    ensures (forall i | 0 <= i <= n :: Inv(states[i])) <==> NeverArmsZero(states, actions, n)
  {
    if n > 0 {
      RunExact(states, actions, n - 1);
      if NeverArmsZero(states, actions, n - 1) {
        StepExact(states[n - 1], actions[n - 1], states[n]);
      }
    }
  }

  /** Away from the two assignment blocks the driver is busy just when an alarm is pending or
      its flag is set. */
  predicate BusyRight(s: State) {
    LoopStable(s.pc) ==> (s.isBusy <==> s.alarm.Some? || s.timerDone)
  }

  lemma SignalsKeepTimer(s: State, a: Action, s': State)
    requires TimerOk(s) && Next(s, a, s') && !a.Own?
    ensures TimerOk(s')
  {
  }

  lemma ArmingZeroShows(s: State)
    requires TimerOk(s) && s.pc == SetAlarm(0)
    ensures !BusyRight(Step(s, Nothing))
  {
  }

  /** That alone, without the records, already tells whether alarm(0) was ever called. */
  lemma {:induction false} BusyRightExactly(states: seq<State>, actions: seq<Action>, n: nat)
    requires Run(states, actions) && n <= |actions|
    ensures (forall i | 0 <= i <= n :: BusyRight(states[i])) <==> NeverArmsZero(states, actions, n)
    ensures NeverArmsZero(states, actions, n) ==> TimerOk(states[n])
  {
    if n > 0 {
      BusyRightExactly(states, actions, n - 1);
      if NeverArmsZero(states, actions, n - 1) {
        var s, a := states[n - 1], actions[n - 1];
        assert Next(s, a, states[n]);
        if !a.Own? {
          SignalsKeepTimer(s, a, states[n]);
        } else if s.pc == SetAlarm(0) {
          ArmingZeroShows(s);
        } else {
          OwnStepTimer(s, a.input);
        }
      }
    }
  }

  /** The command line refuses tasks with a timer of 0 or less. */
  ghost predicate PositiveTimers(actions: seq<Action>, n: nat) {
    forall i | 0 <= i < n && i < |actions| ::
      actions[i].Own? && actions[i].input.Received? && actions[i].input.command.Task? ==>
        actions[i].input.command.timer > 0
  }

  /** The command the driver has read and not yet worked out an answer to. */
  function AtHand(pc: Pc): Option<Command> {
    match pc
    case TestDone(r) => Resumed(r)
    case ClearDone(r) => Resumed(r)
    case ClearBusy(r) => Resumed(r)
    case ClearUntil(r) => Resumed(r)
    case Dispatch(command) => Some(command)
    case SetUntil(timer) => Some(Task(timer))
    case SetAlarm(timer) => Some(Task(timer))
    case _ => None
  }

  function Resumed(r: Resume): Option<Command> {
    if r.ToDispatch? then Some(r.command) else None
  }

  lemma StaysAtHand(s: State, input: Input)
    requires Enabled(s.pc, input) && !s.pc.Reading?
    ensures AtHand(Step(s, input).pc).Some? ==> AtHand(Step(s, input).pc) == AtHand(s.pc)
  {
  }

  ghost predicate TimerPositive(pc: Pc) {
    AtHand(pc).Some? && AtHand(pc).value.Task? ==> AtHand(pc).value.timer > 0
  }

  lemma TimerStaysPositive(s: State, a: Action, s': State)
    requires TimerPositive(s.pc) && Next(s, a, s')
    requires a.Own? && a.input.Received? && a.input.command.Task? ==> a.input.command.timer > 0
    ensures TimerPositive(s'.pc)
    ensures (s'.started == s.started && s'.timer == s.timer) || s'.timer > 0
  {
    if a.Own? && !s.pc.Reading? {
      StaysAtHand(s, a.input);
    }
  }

  /** With positive timers alarm(0) is never called. */
  lemma {:induction false} PositiveTimersSuffice(states: seq<State>, actions: seq<Action>, n: nat)
    requires Run(states, actions) && n <= |actions| && PositiveTimers(actions, n)
    ensures NeverArmsZero(states, actions, n) && TimerPositive(states[n].pc)
    ensures states[n].started > 0 ==> states[n].timer > 0
  {
    if n > 0 {
      PositiveTimersSuffice(states, actions, n - 1);
      TimerStaysPositive(states[n - 1], actions[n - 1], states[n]);
    }
  }

  /** alarm() never replaces a pending alarm, and never runs with a finished one unseen. */
  lemma AlarmNeverReplaced(states: seq<State>, actions: seq<Action>, k: nat)
    requires Run(states, actions) && k <= |actions| && NeverArmsZero(states, actions, k)
    requires states[k].pc.SetAlarm?
    ensures states[k].alarm == None && !states[k].timerDone
  {
    RunExact(states, actions, k);
    assert Inv(states[k]);
  }

  /** The alarms, in every run: task k is armed, its own alarm fires, then it is freed, and
      only then is task k + 1 armed. Its OK is sent after it was armed and before it is freed. */
  lemma TasksNeverOverlap(states: seq<State>, actions: seq<Action>, k: nat)
    requires Run(states, actions) && k <= |actions| && NeverArmsZero(states, actions, k)
    ensures forall i | 0 <= i < |states[k].log| :: states[k].log[i] == Cycle(i)
    ensures forall t | 0 <= t < |states[k].okAt| :: 3 * t + 1 <= states[k].okAt[t] <= 3 * t + 2
  {
    RunExact(states, actions, k);
    assert Inv(states[k]);
  }

  /** The event `e` happened after the OK of task t and before the next one. */
  ghost predicate BetweenOks(s: State, t: nat, e: Event)
    requires t + 1 < |s.okAt|
  {
    exists i | s.okAt[t] <= i < s.okAt[t + 1] && 0 <= i < |s.log| :: s.log[i] == e
  }

  /** Two OKs are separated by the first task's own alarm if and only if that alarm was still
      pending when the first OK went out: nothing but its arming had been logged. */
  lemma OksSeparatedExactly(states: seq<State>, actions: seq<Action>, k: nat, t: nat)
    requires Run(states, actions) && k <= |actions| && NeverArmsZero(states, actions, k)
    requires t + 1 < |states[k].okAt|
    ensures BetweenOks(states[k], t, Fire(t)) <==> states[k].okAt[t] == 3 * t + 1
  {
    RunExact(states, actions, k);
    assert Inv(states[k]);
    var s := states[k];
    OksAreLogged(s, t + 1);
    assert s.log[3 * t + 1] == Cycle(3 * t + 1) == Fire(t);
    forall i | s.okAt[t] <= i < s.okAt[t + 1] && 0 <= i < |s.log| && s.log[i] == Fire(t)
      ensures i == 3 * t + 1
    {
      assert Cycle(i) == Fire(t);
    }
  }

  lemma OksAreLogged(s: State, t: nat)
    requires Inv(s) && t < |s.okAt|
    ensures 3 * t + 1 <= |s.log|
  {
  }

  /** The test at the moment of sending: so far only the new task's arming is logged beyond
      the tasks of the earlier OKs exactly when its alarm is still pending. */
  lemma OkSentPending(s: State)
    requires Inv(s) && s.pc.Answering? && s.pc.answer.Ok?
    ensures Step(s, Nothing).okAt == s.okAt + [|s.log|]
    ensures |s.log| == 3 * |s.okAt| + 1 <==> s.alarm.Some?
    ensures |s.log| == 3 * |s.okAt| + 2 <==> s.timerDone
  {
  }

  lemma {:induction false} OkAtGrows(states: seq<State>, actions: seq<Action>, i: nat, k: nat)
    requires Run(states, actions) && i <= k <= |actions|
    ensures states[i].okAt <= states[k].okAt
    decreases k
  {
    if i < k {
      OkAtGrows(states, actions, i, k - 1);
      assert Next(states[k - 1], actions[k - 1], states[k]);
    }
  }

  /** Over every run: two OKs are separated by the first task's own alarm if and only if that
      alarm is still pending in the step j that sends the first OK. */
  lemma OksSeparatedIffPending(states: seq<State>, actions: seq<Action>, j: nat, k: nat)
    requires Run(states, actions) && j < k <= |actions| && NeverArmsZero(states, actions, k)
    requires actions[j].Own? && states[j].pc.Answering? && states[j].pc.answer.Ok?
    requires |states[j].okAt| + 1 < |states[k].okAt|
    ensures var t := |states[j].okAt|;
            BetweenOks(states[k], t, Fire(t)) <==> states[j].alarm.Some?
  {
    var t := |states[j].okAt|;
    OksSeparatedExactly(states, actions, k, t);
    RunExact(states, actions, j);
    assert Inv(states[j]) && Next(states[j], actions[j], states[j + 1]);
    OkSentPending(states[j]);
    OkAtGrows(states, actions, j + 1, k);
    assert states[j + 1].okAt[t] == |states[j].log|;
  }

  /** A BUSY answer carries between 0 and the accepted timer. */
  lemma BusyAnswerBounded(states: seq<State>, actions: seq<Action>, k: nat)
    requires Run(states, actions) && k < |actions| && PositiveTimers(actions, k)
    requires states[k].pc.Dispatch? && actions[k].Own?
    requires states[k + 1].pc.Answering? && states[k + 1].pc.answer.Busy?
    ensures 0 <= states[k + 1].pc.answer.left <= states[k].timer
  {
    PositiveTimersSuffice(states, actions, k);
    RunExact(states, actions, k);
    assert Inv(states[k]) && Next(states[k], actions[k], states[k + 1]);
  }

  /** And that is the time left of the accepted task, by the clock at that moment. */
  lemma BusyAnswerExact(states: seq<State>, actions: seq<Action>, k: nat)
    requires Run(states, actions) && k < |actions| && NeverArmsZero(states, actions, k)
    requires states[k].pc.Dispatch? && actions[k].Own?
    requires states[k + 1].pc.Answering? && states[k + 1].pc.answer.Busy?
    ensures var due := states[k].acceptedAt + states[k].timer;
            states[k + 1].pc.answer.left == if due <= states[k].now then 0 else due - states[k].now
  {
    RunExact(states, actions, k);
    assert Inv(states[k]) && Next(states[k], actions[k], states[k + 1]);
  }

  /** The driver takes a task, or says it is available, exactly when every task it has armed
      so far has fired and been freed. */
  lemma AvailableExactly(states: seq<State>, actions: seq<Action>, k: nat)
    requires Run(states, actions) && k < |actions| && NeverArmsZero(states, actions, k)
    requires states[k].pc.Dispatch? && actions[k].Own?
    ensures states[k].pc.command == Status ==>
              states[k + 1].pc.Answering? &&
              (states[k + 1].pc.answer == Available <==> |states[k].log| == 3 * states[k].started)
    ensures states[k].pc.command.Task? ==>
              (states[k + 1].pc.SetUntil? <==> |states[k].log| == 3 * states[k].started)
  {
    RunExact(states, actions, k);
    assert Inv(states[k]) && Next(states[k], actions[k], states[k + 1]);
  }

  // ---- one answer for each command

  /** The answers that fit a command; none fits Exit. */
  predicate Suits(command: Command, answer: Answer) {
    match command
    case Task(timer) => answer == Ok(timer) || answer.Busy?
    case Status => answer == Available || answer.Busy?
    case Unknown => answer == Error
    case Exit => false
  }

  /** A command has been read and its answer not yet sent. */
  predicate AtWork(pc: Pc) {
    AtHand(pc).Some? || pc.Answering?
  }

  /** What the driver still has to do suits the last command it read. */
  predicate WorksOn(pc: Pc, command: Command) {
    match pc
    case Answering(answer) => Suits(command, answer)
    case Stopped => command == Exit
    case _ => AtHand(pc) == Some(command)
  }

  ghost predicate OneAnswerEach(s: State) {
    && |s.sent| <= |s.received| <= |s.sent| + 1
    && (forall k | 0 <= k < |s.sent| :: Suits(s.received[k], s.sent[k]))
    && (AtWork(s.pc) ==> |s.received| == |s.sent| + 1)
    && (|s.received| == |s.sent| + 1 ==> WorksOn(s.pc, s.received[|s.sent|]))
  }

  /** Between reading and answering the driver stays with its command. */
  lemma WorkGoesOn(s: State, input: Input, command: Command)
    requires Enabled(s.pc, input) && AtHand(s.pc) == Some(command)
    ensures WorksOn(Step(s, input).pc, command)
    ensures Step(s, input).received == s.received && Step(s, input).sent == s.sent
  {
  }

  /** Only a completed read adds a command, only a completed write an answer. */
  lemma WhatIsRecorded(s: State, a: Action, s': State)
    requires Next(s, a, s')
    ensures s'.received == s.received + if a.Own? && a.input.Received? then [a.input.command] else []
    ensures s'.sent == s.sent + if a.Own? && s.pc.Answering? then [s.pc.answer] else []
    ensures !a.Own? ==> s'.pc == s.pc
  {
  }

  lemma CommandIsOwed(s: State, command: Command)
    requires OneAnswerEach(s) && s.pc.Reading?
    ensures OneAnswerEach(s.(pc := TestDone(ToDispatch(command)), received := s.received + [command]))
  {
  }

  lemma AnswerIsGiven(s: State)
    requires OneAnswerEach(s) && s.pc.Answering?
    ensures OneAnswerEach(Step(s, Nothing))
  {
  }

  lemma NothingOwed(s: State, input: Input)
    requires OneAnswerEach(s) && Enabled(s.pc, input) && !AtWork(s.pc) && !input.Received?
    ensures OneAnswerEach(Step(s, input))
  {
  }

  lemma OneAnswerEachKept(s: State, a: Action, s': State)
    requires OneAnswerEach(s) && Next(s, a, s')
    ensures OneAnswerEach(s')
  {
    if a.Own? {
      if AtHand(s.pc).Some? {
        WorkGoesOn(s, a.input, AtHand(s.pc).value);
      } else if s.pc.Answering? {
        AnswerIsGiven(s);
      } else if a.input.Received? {
        CommandIsOwed(s, a.input.command);
      } else {
        NothingOwed(s, a.input);
      }
    }
  }

  /** Over every run, signals and timers of 0 included: answers are sent in the order of the
      commands, each fits its command, and only the command at hand or a final Exit, which is
      never answered, is without one. */
  lemma {:induction false} AnswersInOrder(states: seq<State>, actions: seq<Action>, n: nat)
    requires Run(states, actions) && n <= |actions|
    ensures OneAnswerEach(states[n])
    ensures forall k | 0 <= k < |states[n].sent| :: Suits(states[n].received[k], states[n].sent[k])
    ensures |states[n].received| == |states[n].sent| +
            if AtWork(states[n].pc) || (states[n].received != [] && states[n].received[|states[n].received| - 1] == Exit)
            then 1 else 0
  {
    if n > 0 {
      AnswersInOrder(states, actions, n - 1);
      OneAnswerEachKept(states[n - 1], actions[n - 1], states[n]);
    }
  }

  /** A BUSY answer was preceded by the OK of a task that has at least that much time. */
  ghost predicate BusyBacked(sent: seq<Answer>, answer: Answer) {
    answer.Busy? ==>
      answer.left >= 0 && exists j | 0 <= j < |sent| :: sent[j].Ok? && answer.left <= sent[j].timer
  }

  /** The timer of the latest task was promised in an OK, or is about to be. */
  ghost predicate TimerPromised(s: State) {
    s.started > 0 ==>
      || s.pc == SetUntil(s.timer) || s.pc == SetAlarm(s.timer) || s.pc == Answering(Ok(s.timer))
      || Ok(s.timer) in s.sent
  }

  ghost predicate SentBacked(sent: seq<Answer>) {
    forall k | 0 <= k < |sent| :: BusyBacked(sent[..k], sent[k])
  }

  lemma SentBackedMore(sent: seq<Answer>, answer: Answer)
    requires SentBacked(sent) && BusyBacked(sent, answer)
    ensures SentBacked(sent + [answer])
  {
    var more := sent + [answer];
    forall k | 0 <= k < |more| ensures BusyBacked(more[..k], more[k]) {
      assert more[..k] == if k < |sent| then sent[..k] else sent;
    }
  }

  ghost predicate AllBusyBacked(s: State) {
    TimerPromised(s) && SentBacked(s.sent) && (s.pc.Answering? ==> BusyBacked(s.sent, s.pc.answer))
  }

  lemma PromiseKept(s: State, a: Action, s': State)
    requires TimerPromised(s) && Next(s, a, s')
    ensures TimerPromised(s')
  {
  }

  lemma DispatchBacked(s: State)
    requires Inv(s) && TimerPromised(s) && s.pc.Dispatch? && (s.started > 0 ==> s.timer > 0)
    ensures var s' := Step(s, Nothing); s'.pc.Answering? ==> BusyBacked(s.sent, s'.pc.answer)
  {
    if s.isBusy {
      var j :| 0 <= j < |s.sent| && s.sent[j] == Ok(s.timer);
    }
  }

  lemma OnlyDispatchSaysBusy(s: State, input: Input)
    requires Enabled(s.pc, input) && !s.pc.Dispatch?
    ensures var pc := Step(s, input).pc; pc.Answering? ==> !pc.answer.Busy?
  {
  }

  lemma BackedKept(s: State, a: Action, s': State)
    requires Inv(s) && AllBusyBacked(s) && (s.started > 0 ==> s.timer > 0) && Next(s, a, s')
    ensures AllBusyBacked(s')
  {
    PromiseKept(s, a, s');
    WhatIsRecorded(s, a, s');
    if a.Own? {
      if s.pc.Answering? {
        SentBackedMore(s.sent, s.pc.answer);
      }
      if s.pc.Dispatch? {
        DispatchBacked(s);
      } else {
        OnlyDispatchSaysBusy(s, a.input);
      }
    }
  }

  lemma {:induction false} EveryBusyBacked(states: seq<State>, actions: seq<Action>, n: nat)
    requires Run(states, actions) && n <= |actions| && PositiveTimers(actions, n)
    ensures AllBusyBacked(states[n])
  {
    if n > 0 {
      EveryBusyBacked(states, actions, n - 1);
      PositiveTimersSuffice(states, actions, n - 1);
      RunExact(states, actions, n - 1);
      assert Inv(states[n - 1]);
      BackedKept(states[n - 1], actions[n - 1], states[n]);
    }
  }

  /** Behind every BUSY sent there is an earlier command, a task with at least that timer. */
  lemma BusyCommand(s: State, k: nat) returns (j: nat)
    requires OneAnswerEach(s) && AllBusyBacked(s) && k < |s.sent| && s.sent[k].Busy?
    ensures j < k && s.received[j].Task? && 0 <= s.sent[k].left <= s.received[j].timer
  {
    assert BusyBacked(s.sent[..k], s.sent[k]);
    j :| 0 <= j < k && s.sent[j].Ok? && s.sent[k].left <= s.sent[j].timer;
    assert Suits(s.received[j], s.sent[j]);
  }

  // ---- stopping

  /** Commands the driver can still read before it looks at g_need_stop. */
  function MayStillRead(pc: Pc): nat {
    match pc
    case TestDone(r) => if r.ToPoll? then 1 else 0
    case ClearDone(r) => if r.ToPoll? then 1 else 0
    case ClearBusy(r) => if r.ToPoll? then 1 else 0
    case ClearUntil(r) => if r.ToPoll? then 1 else 0
    case Polling => 1
    case Reading => 1
    case _ => 0
  }

  lemma StopIsHeeded(s: State, a: Action, s': State)
    requires s.needStop && Next(s, a, s')
    ensures s'.needStop
    ensures |s'.received| + MayStillRead(s'.pc) <= |s.received| + MayStillRead(s.pc)
  {
  }

  /** After SIGTERM the driver reads at most one more command, and none once it has stopped or
      is at work on one. */
  lemma {:induction false} OneCommandAfterStop(states: seq<State>, actions: seq<Action>, i: nat, k: nat)
    requires Run(states, actions) && i <= k <= |actions| && states[i].needStop
    ensures states[k].needStop
    ensures |states[k].received| + MayStillRead(states[k].pc) <= |states[i].received| + MayStillRead(states[i].pc)
    ensures |states[k].received| <= |states[i].received| + 1
    decreases k
  {
    if i < k {
      OneCommandAfterStop(states, actions, i, k - 1);
      StopIsHeeded(states[k - 1], actions[k - 1], states[k]);
    }
  }

  /** A SIGTERM that interrupts poll leaves no command to be read at all. */
  lemma NoCommandAfterInterruptedPoll(states: seq<State>, actions: seq<Action>, i: nat, k: nat)
    requires Run(states, actions) && i < k <= |actions|
    requires states[i].needStop && actions[i] == Own(Interrupted)
    ensures |states[k].received| <= |states[i].received|
  {
    assert Next(states[i], actions[i], states[i + 1]);
    OneCommandAfterStop(states, actions, i + 1, k);
  }

  lemma StoppedStays(s: State, a: Action, s': State)
    requires s.pc == Stopped && Next(s, a, s')
    ensures s'.pc == Stopped && s'.received == s.received && s'.sent == s.sent
  {
  }

  /** When the pipe of the commands is closed, poll or read reports it, and from then on the
      driver reads no command and sends no answer. */
  lemma {:induction false} NothingAfterHangup(states: seq<State>, actions: seq<Action>, i: nat, k: nat)
    requires Run(states, actions) && i < k <= |actions| && actions[i] == Own(Hangup)
    ensures states[k].pc == Stopped
    ensures states[k].received == states[i].received && states[k].sent == states[i].sent
    decreases k
  {
    if k == i + 1 {
      assert Next(states[i], actions[i], states[k]);
    } else {
      NothingAfterHangup(states, actions, i, k - 1);
      StoppedStays(states[k - 1], actions[k - 1], states[k]);
    }
  }

  ghost predicate PositiveCommands(received: seq<Command>) {
    forall k | 0 <= k < |received| && received[k].Task? :: received[k].timer > 0
  }

  /** The timers of a run are those of the commands it has read. */
  lemma {:induction false} PositiveCommandsSuffice(states: seq<State>, actions: seq<Action>, n: nat)
    requires Run(states, actions) && n <= |actions| && PositiveCommands(states[n].received)
    ensures PositiveTimers(actions, n)
  {
    if n > 0 {
      WhatIsRecorded(states[n - 1], actions[n - 1], states[n]);
      var before, now := states[n - 1].received, states[n].received;
      assert forall k | 0 <= k < |before| :: now[k] == before[k];
      PositiveCommandsSuffice(states, actions, n - 1);
      assert actions[n - 1].Own? && actions[n - 1].input.Received? ==>
               now[|before|] == actions[n - 1].input.command;
    }
  }

  // ---- where the literal claims fail

  /** With a timer of 0 no alarm is set and the driver stays busy for good. */
  ghost predicate Stuck(s: State) {
    && s.isBusy && s.alarm.None? && !s.timerDone && s.started > 0
    && !s.pc.ClearDone? && !s.pc.ClearBusy? && !s.pc.SetUntil? && !s.pc.SetAlarm?
  }

  lemma ZeroTimerSticks(s: State)
    requires Inv(s) && s.pc == SetAlarm(0)
    ensures Stuck(Step(s, Nothing))
  {
  }

  lemma StuckForever(s: State, a: Action, s': State)
    requires Stuck(s) && Next(s, a, s')
    ensures Stuck(s') && s'.started == s.started
  {
  }

  /** The first task's alarm can fire before its own OK is sent. */
  lemma AlarmBeforeItsAnswer(start: State) returns (states: seq<State>, actions: seq<Action>)
    requires Init(start)
    ensures Run(states, actions) && states[0] == start && PositiveTimers(actions, |actions|)
    ensures states[|actions|].okAt == [2] && states[|actions|].log == [Arm(0), Fire(0)]
    ensures states[|actions|].pc == LoopHead && states[|actions|].timerDone
    ensures !states[|actions|].needStop && states[|actions|].started == 1
  {
    var task := Task(1);
    var s1 := Step(start, Nothing);
    var s2 := Step(s1, Nothing);
    var s3 := Step(s2, Readable);
    var s4 := Step(s3, Received(task));
    var s5 := Step(s4, Nothing);
    var s6 := Step(s5, Nothing);
    var s7 := Step(s6, Nothing);
    var s8 := Step(s7, Nothing);
    var s9 := s8.(alarm := None, timerDone := true, log := s8.log + [Fire(0)]);
    var s10 := Step(s9, Nothing);
    states := [start, s1, s2, s3, s4, s5, s6, s7, s8, s9, s10];
    actions := [Own(Nothing), Own(Nothing), Own(Readable), Own(Received(task)), Own(Nothing),
                Own(Nothing), Own(Nothing), Own(Nothing), AlarmSignal, Own(Nothing)];
  }

  /** The finished alarm of the last task is cleared on the way to poll. */
  lemma ClearedBeforePoll(s: State) returns (states: seq<State>, actions: seq<Action>)
    requires s.pc == LoopHead && s.timerDone && !s.needStop
    ensures Chain(states, actions) && states[0] == s && PositiveTimers(actions, |actions|)
    ensures states[|actions|] == s.(pc := Polling, timerDone := false, isBusy := false, busyUntil := 0,
                                    log := s.log + [Free(s.started - 1)])
  {
    var s1 := Step(s, Nothing);
    var s2 := Step(s1, Nothing);
    var s3 := Step(s2, Nothing);
    var s4 := Step(s3, Nothing);
    states := [s, s1, s2, s3, s4, Step(s4, Nothing)];
    actions := [Own(Nothing), Own(Nothing), Own(Nothing), Own(Nothing), Own(Nothing)];
  }

  lemma TaskServed(s: State) returns (states: seq<State>, actions: seq<Action>)
    requires s.pc == Polling && !s.timerDone && !s.isBusy
    ensures Chain(states, actions) && states[0] == s && PositiveTimers(actions, |actions|)
    ensures states[|actions|].okAt == s.okAt + [|s.log| + 1]
    ensures states[|actions|].log == s.log + [Arm(s.started)]
  {
    var s1 := Step(s, Readable);
    var s2 := Step(s1, Received(Task(1)));
    var s3 := Step(s2, Nothing);
    var s4 := Step(s3, Nothing);
    var s5 := Step(s4, Nothing);
    var s6 := Step(s5, Nothing);
    states := [s, s1, s2, s3, s4, s5, s6, Step(s6, Nothing)];
    actions := [Own(Readable), Own(Received(Task(1))), Own(Nothing), Own(Nothing), Own(Nothing),
                Own(Nothing), Own(Nothing)];
  }

  /** A run with two OKs and no alarm of any task between them. */
  lemma TwoOksNoAlarmBetween(start: State) returns (states: seq<State>, actions: seq<Action>)
    requires Init(start)
    ensures Run(states, actions) && states[0] == start && PositiveTimers(actions, |actions|)
    ensures states[|actions|].okAt == [2, 4]
    ensures states[|actions|].log == [Arm(0), Fire(0), Free(0), Arm(1)]
    ensures forall task :: !BetweenOks(states[|actions|], 0, Fire(task))
  {
    var first, firstActions := AlarmBeforeItsAnswer(start);
    var second, secondActions := ClearedBeforePoll(first[|firstActions|]);
    var third, thirdActions := TaskServed(second[|secondActions|]);
    Joined(first, firstActions, second, secondActions);
    states, actions := first + second[1..], firstActions + secondActions;
    Joined(states, actions, third, thirdActions);
    states, actions := states + third[1..], actions + thirdActions;
  }
}
