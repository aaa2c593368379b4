/** A driver process of taxi-cli at the far end of its two pipes: the transfers of bytes
    and the driver's own steps, signals included, in any interleaving. */
module TaxiExchange {
  import opened PipeFraming
  import TaxiDriver

  const CMD_TASK := 1
  const CMD_STATUS := 2
  const CMD_EXIT := 3

  const ANSWER_OK := 1
  const ANSWER_AVAILABLE := 2
  const ANSWER_BUSY := 3
  const ANSWER_ERROR := 4

  /** How the dispatch reads the fields of a command. */
  function CommandOf(r: Record): TaxiDriver.Command {
    if r.kind == CMD_TASK then TaxiDriver.Task(r.timer)
    else if r.kind == CMD_STATUS then TaxiDriver.Status
    else if r.kind == CMD_EXIT then TaxiDriver.Exit
    else TaxiDriver.Unknown
  }

  /** The conversion of a time to the int field of an answer. */
  function ToInt32(x: int): Int32 {
    var u := x % 0x1_0000_0000;
    if u < 0x8000_0000 then u else u - 0x1_0000_0000
  }

  /** What `send_answer` writes. */
  function AnswerRecord(a: TaxiDriver.Answer): Record {
    match a
    case Ok(timer) => Record(ANSWER_OK, ToInt32(timer))
    case Available => Record(ANSWER_AVAILABLE, 0)
    case Busy(left) => Record(ANSWER_BUSY, ToInt32(left))
    case Error => Record(ANSWER_ERROR, 0)
  }

  datatype State = State(pipes: Exchange, driver: TaxiDriver.State)

  /** `Driver` covers everything the driver does between its reads and writes; the last bytes
      of a command and of an answer move both parts at once. */
  datatype Action =
    | Pipes(a: PipeFraming.Action)
    | Driver(d: TaxiDriver.Action)
    | CommandArrives(n: nat)
    | AnswerStarts
    | AnswerLeaves(n: nat)

  ghost predicate Init(s: State) {
    PipeFraming.Init(s.pipes) && TaxiDriver.Init(s.driver)
  }

  /** The transfers that leave the driver where it is. */
  ghost predicate OnlyPipes(s: State, a: PipeFraming.Action, after: Exchange) {
    match a
    case DriverReads(_) => s.driver.pc.Reading? && after.answerer.Listening?
    case DriverWrites(_) => after.answerer.Replying?
    case Reply(_) => false
    case _ => true
  }

  /** Signals, and the driver's steps that move no bytes. */
  ghost predicate OnlyDriver(s: State, d: TaxiDriver.Action) {
    d.Own? ==>
      && !s.driver.pc.Answering? && !d.input.Received?
      && (d.input.Readable? ==> s.pipes.toDriver != [])
  }

  ghost predicate Next(s: State, a: Action, s': State) {
    match a
    case Pipes(p) =>
      PipeFraming.Next(s.pipes, p, s'.pipes) && s'.driver == s.driver && OnlyPipes(s, p, s'.pipes)
    case Driver(d) =>
      TaxiDriver.Next(s.driver, d, s'.driver) && s'.pipes == s.pipes && OnlyDriver(s, d)
    case CommandArrives(n) =>
      && PipeFraming.Next(s.pipes, DriverReads(n), s'.pipes) && s'.pipes.answerer.Working?
      && s'.pipes.taken != []
      && var command := CommandOf(s'.pipes.taken[|s'.pipes.taken| - 1]);
      && s.driver.pc.Reading?
      && TaxiDriver.Next(s.driver, TaxiDriver.Own(TaxiDriver.Received(command)), s'.driver)
    case AnswerStarts =>
      && s.driver.pc.Answering? && s'.driver == s.driver
      && PipeFraming.Next(s.pipes, Reply(AnswerRecord(s.driver.pc.answer)), s'.pipes)
    case AnswerLeaves(n) =>
      && PipeFraming.Next(s.pipes, DriverWrites(n), s'.pipes) && s'.pipes.answerer.Listening?
      && s.driver.pc.Answering?
      && TaxiDriver.Next(s.driver, TaxiDriver.Own(TaxiDriver.Nothing), s'.driver)
  }

  /** What has crossed the pipes is what the driver has read and answered. */
  ghost predicate Linked(s: State) {
    && |s.pipes.taken| == |s.driver.received|
    && (forall k | 0 <= k < |s.pipes.taken| :: s.driver.received[k] == CommandOf(s.pipes.taken[k]))
    && |s.pipes.replied| == |s.driver.sent| + (if s.pipes.answerer.Replying? then 1 else 0)
    && (forall k | 0 <= k < |s.driver.sent| :: s.pipes.replied[k] == AnswerRecord(s.driver.sent[k]))
    && (s.pipes.answerer.Replying? ==>
          s.driver.pc.Answering? && s.pipes.replied[|s.driver.sent|] == AnswerRecord(s.driver.pc.answer))
  }

  ghost predicate Inv(s: State) {
    PipeFraming.Inv(s.pipes) && TaxiDriver.OneAnswerEach(s.driver) && Linked(s)
  }

  lemma SameRecords(s: State, a: PipeFraming.Action, s': State)
    requires Next(s, Pipes(a), s')
    ensures s'.pipes.taken == s.pipes.taken && s'.pipes.replied == s.pipes.replied
    ensures s'.pipes.answerer.Replying? <==> s.pipes.answerer.Replying?
  {
  }

  lemma PipesKeepLink(s: State, a: PipeFraming.Action, s': State)
    requires Linked(s) && Next(s, Pipes(a), s')
    ensures Linked(s')
  {
    SameRecords(s, a, s');
  }

  lemma DriverKeepsLink(s: State, d: TaxiDriver.Action, s': State)
    requires Inv(s) && Next(s, Driver(d), s')
    ensures Linked(s')
  {
    TaxiDriver.WhatIsRecorded(s.driver, d, s'.driver);
    assert s'.driver.received == s.driver.received && s'.driver.sent == s.driver.sent;
  }

  lemma CommandLinks(s: State, s': State)
    requires Linked(s) && s'.pipes.replied == s.pipes.replied && s'.driver.sent == s.driver.sent
    requires !s.pipes.answerer.Replying? && !s'.pipes.answerer.Replying?
    requires |s'.pipes.taken| == |s.pipes.taken| + 1 && s.pipes.taken <= s'.pipes.taken
    requires s'.driver.received == s.driver.received + [CommandOf(s'.pipes.taken[|s.pipes.taken|])]
    ensures Linked(s')
  {
  }

  lemma CommandIsTaken(s: State, n: nat, s': State)
    requires Next(s, CommandArrives(n), s')
    ensures s.pipes.answerer.Listening? && s'.pipes.answerer.Working?
    ensures s'.pipes.replied == s.pipes.replied
    ensures |s'.pipes.taken| == |s.pipes.taken| + 1 && s.pipes.taken <= s'.pipes.taken
  {
  }

  lemma CommandArrivesKeepsInv(s: State, n: nat, s': State)
    requires Inv(s) && Next(s, CommandArrives(n), s')
    ensures Inv(s')
  {
    PipeFraming.InvKept(s.pipes, DriverReads(n), s'.pipes);
    var command := CommandOf(s'.pipes.taken[|s'.pipes.taken| - 1]);
    var step := TaxiDriver.Own(TaxiDriver.Received(command));
    TaxiDriver.OneAnswerEachKept(s.driver, step, s'.driver);
    TaxiDriver.WhatIsRecorded(s.driver, step, s'.driver);
    CommandIsTaken(s, n, s');
    CommandLinks(s, s');
  }

  lemma AnswerLinks(s: State, s': State)
    requires Linked(s) && s.pipes.answerer.Replying? && s'.pipes.answerer.Listening?
    requires s'.pipes.taken == s.pipes.taken && s'.pipes.replied == s.pipes.replied
    requires s'.driver.received == s.driver.received
    requires s'.driver.sent == s.driver.sent + [s.driver.pc.answer]
    ensures Linked(s')
  {
  }

  lemma StartLinks(s: State, s': State)
    requires Linked(s) && !s.pipes.answerer.Replying? && s'.pipes.answerer.Replying?
    requires s.driver.pc.Answering? && s'.driver == s.driver && s'.pipes.taken == s.pipes.taken
    requires s'.pipes.replied == s.pipes.replied + [AnswerRecord(s.driver.pc.answer)]
    ensures Linked(s')
  {
  }

  lemma AnswerStartsKeepsInv(s: State, s': State)
    requires Inv(s) && Next(s, AnswerStarts, s')
    ensures Inv(s')
  {
    PipeFraming.InvKept(s.pipes, Reply(AnswerRecord(s.driver.pc.answer)), s'.pipes);
    StartLinks(s, s');
  }

  lemma AnswerLeavesKeepsInv(s: State, n: nat, s': State)
    requires Inv(s) && Next(s, AnswerLeaves(n), s')
    ensures Inv(s')
  {
    var step := TaxiDriver.Own(TaxiDriver.Nothing);
    PipeFraming.InvKept(s.pipes, DriverWrites(n), s'.pipes);
    TaxiDriver.OneAnswerEachKept(s.driver, step, s'.driver);
    TaxiDriver.WhatIsRecorded(s.driver, step, s'.driver);
    AnswerLinks(s, s');
  }

  lemma InvKept(s: State, a: Action, s': State)
    requires Inv(s) && Next(s, a, s')
    ensures Inv(s')
  {
    match a
    case Pipes(p) =>
      PipeFraming.InvKept(s.pipes, p, s'.pipes);
      PipesKeepLink(s, p, s');
    case Driver(d) =>
      TaxiDriver.OneAnswerEachKept(s.driver, d, s'.driver);
      DriverKeepsLink(s, d, s');
    case CommandArrives(n) => CommandArrivesKeepsInv(s, n, s');
    case AnswerStarts => AnswerStartsKeepsInv(s, s');
    case AnswerLeaves(n) => AnswerLeavesKeepsInv(s, n, s');
  }

  ghost predicate Run(states: seq<State>, actions: seq<Action>) {
    && |states| == |actions| + 1 && Init(states[0])
    && forall i | 0 <= i < |actions| :: Next(states[i], actions[i], states[i + 1])
  }

  lemma {:induction false} RunKeepsInv(states: seq<State>, actions: seq<Action>, n: nat)
    requires Run(states, actions) && n <= |actions|
    ensures Inv(states[n])
  {
    if n == 0 {
      InitHolds(states[0]);
    } else {
      RunKeepsInv(states, actions, n - 1);
      InvKept(states[n - 1], actions[n - 1], states[n]);
    }
  }

  lemma InitHolds(s: State)
    requires Init(s)
    ensures Inv(s)
  {
  }

  /** Whatever the pipes do, the driver's part is a run of the driver. */
  lemma {:induction false} DriverRuns(states: seq<State>, actions: seq<Action>, n: nat)
      returns (ds: seq<TaxiDriver.State>, das: seq<TaxiDriver.Action>)
    requires Run(states, actions) && n <= |actions|
    ensures TaxiDriver.Run(ds, das) && ds[|das|] == states[n].driver
  {
    if n == 0 {
      ds, das := [states[0].driver], [];
    } else {
      ds, das := DriverRuns(states, actions, n - 1);
      assert Next(states[n - 1], actions[n - 1], states[n]);
      var step: TaxiDriver.Action;
      match actions[n - 1] {
        case Driver(d) => step := d;
        case CommandArrives(_) =>
          var taken := states[n].pipes.taken;
          step := TaxiDriver.Own(TaxiDriver.Received(CommandOf(taken[|taken| - 1])));
        case AnswerLeaves(_) => step := TaxiDriver.Own(TaxiDriver.Nothing);
        case _ => return;
      }
      TaxiDriver.Extended(ds, das, step, states[n].driver);
      ds, das := ds + [states[n].driver], das + [step];
    }
  }

  /** The answers that fit a command, as the asker sees both. */
  predicate Fits(command: Record, answer: Record) {
    && (answer.kind == ANSWER_OK ==> command.kind == CMD_TASK && answer.timer == command.timer)
    && (answer.kind == ANSWER_AVAILABLE ==> command.kind == CMD_STATUS && answer.timer == 0)
    && (answer.kind == ANSWER_BUSY ==> command.kind == CMD_TASK || command.kind == CMD_STATUS)
    && (answer.kind == ANSWER_ERROR <==>
          command.kind != CMD_TASK && command.kind != CMD_STATUS && command.kind != CMD_EXIT)
    && (answer.kind == ANSWER_ERROR ==> answer.timer == 0)
    && ANSWER_OK <= answer.kind <= ANSWER_ERROR && command.kind != CMD_EXIT
  }

  lemma SuitsFits(command: Record, answer: TaxiDriver.Answer)
    requires TaxiDriver.Suits(CommandOf(command), answer)
    ensures Fits(command, AnswerRecord(answer))
  {
  }

  /** However bytes are chopped up and signals fall, the k-th answer read is what the driver
      answered to the k-th command, which it read exactly, and fits it. */
  lemma AnswersBelong(states: seq<State>, actions: seq<Action>, n: nat)
    requires Run(states, actions) && n <= |actions|
    ensures var pipes, driver := states[n].pipes, states[n].driver;
            && |pipes.answers| <= |driver.sent| <= |driver.received| <= |pipes.asked| <= |pipes.answers| + 1
            && (forall k | 0 <= k < |driver.received| :: driver.received[k] == CommandOf(pipes.asked[k]))
            && (forall k | 0 <= k < |pipes.answers| ::
                  pipes.answers[k] == AnswerRecord(driver.sent[k]) && Fits(pipes.asked[k], pipes.answers[k]))
  {
    RunKeepsInv(states, actions, n);
    var pipes, driver := states[n].pipes, states[n].driver;
    forall k | 0 <= k < |pipes.answers|
      ensures pipes.answers[k] == AnswerRecord(driver.sent[k]) && Fits(pipes.asked[k], pipes.answers[k])
    {
      SuitsFits(pipes.asked[k], driver.sent[k]);
    }
  }

  /** The timer results over the pipes: as long as every task asked for has a positive timer,
      the driver satisfies its whole invariant, whatever the pipes and the signals do. */
  lemma TimersHold(states: seq<State>, actions: seq<Action>, n: nat)
    requires Run(states, actions) && n <= |actions|
    requires forall k | 0 <= k < |states[n].pipes.asked| ::
               states[n].pipes.asked[k].kind == CMD_TASK ==> states[n].pipes.asked[k].timer > 0
    ensures TaxiDriver.Inv(states[n].driver)
    ensures states[n].driver.started > 0 ==> states[n].driver.timer > 0
  {
    AnswersBelong(states, actions, n);
    var ds, das := DriverRuns(states, actions, n);
    TaxiDriver.PositiveCommandsSuffice(ds, das, |das|);
    TaxiDriver.PositiveTimersSuffice(ds, das, |das|);
    TaxiDriver.RunExact(ds, das, |das|);
    assert TaxiDriver.Inv(ds[|das|]);
  }

  lemma BusyRecord(a: TaxiDriver.Answer)
    requires AnswerRecord(a).kind == ANSWER_BUSY
    ensures a.Busy? && (0 <= a.left < 0x8000_0000 ==> AnswerRecord(a).timer == a.left)
  {
  }

  lemma BusyInState(s: State, k: nat) returns (j: nat)
    requires TaxiDriver.OneAnswerEach(s.driver) && TaxiDriver.AllBusyBacked(s.driver)
    requires |s.driver.received| <= |s.pipes.asked|
    requires forall i | 0 <= i < |s.driver.received| :: s.driver.received[i] == CommandOf(s.pipes.asked[i])
    requires k < |s.driver.sent| && AnswerRecord(s.driver.sent[k]).kind == ANSWER_BUSY
    ensures s.driver.sent[k] == TaxiDriver.Busy(AnswerRecord(s.driver.sent[k]).timer)
    ensures j < k && s.pipes.asked[j].kind == CMD_TASK
    ensures 0 <= AnswerRecord(s.driver.sent[k]).timer <= s.pipes.asked[j].timer
  {
    BusyRecord(s.driver.sent[k]);
    j := TaxiDriver.BusyCommand(s.driver, k);
    assert s.driver.received[j] == CommandOf(s.pipes.asked[j]);
  }

  /** The BUSY answers the asker reads: with positive timers each carries the number the driver
      worked out, uncut, and an earlier command j was a task with at least that timer. */
  lemma BusyOverThePipes(states: seq<State>, actions: seq<Action>, n: nat, k: nat) returns (j: nat)
    requires Run(states, actions) && n <= |actions|
    requires forall i | 0 <= i < |states[n].pipes.asked| ::
               states[n].pipes.asked[i].kind == CMD_TASK ==> states[n].pipes.asked[i].timer > 0
    requires k < |states[n].pipes.answers| && states[n].pipes.answers[k].kind == ANSWER_BUSY
    ensures k < |states[n].driver.sent|
    ensures states[n].driver.sent[k] == TaxiDriver.Busy(states[n].pipes.answers[k].timer)
    ensures j < k && j < |states[n].pipes.asked| && states[n].pipes.asked[j].kind == CMD_TASK
    ensures 0 <= states[n].pipes.answers[k].timer <= states[n].pipes.asked[j].timer
  {
    AnswersBelong(states, actions, n);
    RunKeepsInv(states, actions, n);
    DriverBacked(states, actions, n);
    j := BusyInState(states[n], k);
  }

  lemma DriverBacked(states: seq<State>, actions: seq<Action>, n: nat)
    requires Run(states, actions) && n <= |actions|
    requires forall i | 0 <= i < |states[n].pipes.asked| ::
               states[n].pipes.asked[i].kind == CMD_TASK ==> states[n].pipes.asked[i].timer > 0
    ensures TaxiDriver.AllBusyBacked(states[n].driver)
  {
    AnswersBelong(states, actions, n);
    var ds, das := DriverRuns(states, actions, n);
    TaxiDriver.PositiveCommandsSuffice(ds, das, |das|);
    TaxiDriver.EveryBusyBacked(ds, das, |das|);
  }
}
