/** The worker pool of lab 16, part 2, server 2: a listener hands out the port of a free
    worker, the client connects there, and the worker frees itself when it has served. */
module WorkerPool {
  import opened Memory

  const WORKER_PORT_BASE := 12520

  // ---- the reservation table

  /** The worker `reserve_worker` picks, or -1 when all are busy. */
  function FirstFree(busy: seq<bool>): (i: int)
    ensures -1 <= i < |busy|
    ensures i == -1 <==> forall k | 0 <= k < |busy| :: busy[k]
    ensures i >= 0 ==> !busy[i] && forall k | 0 <= k < i :: busy[k]
  {
    FirstWhere(busy, b => !b)
  }

  class Workers {
    const busy: array<bool>

    constructor (count: nat)
      ensures fresh(busy) && busy.Length == count
      ensures forall i | 0 <= i < count :: !busy[i]
    {
      busy := new bool[count](_ => false);
    }

    /** The critical section of the listener: a port, or -1. */
    method ReserveWorker() returns (port: int)
      modifies busy
      ensures port == (if FirstFree(old(busy[..])) == -1 then -1
                       else WORKER_PORT_BASE + FirstFree(old(busy[..])))
      ensures busy[..] == if port == -1 then old(busy[..])
                          else old(busy[..])[port - WORKER_PORT_BASE := true]
    {
      port := -1;
      var i := 0;
      while i < busy.Length
        invariant i <= busy.Length && port == -1
        invariant busy[..] == old(busy[..]) && forall k | 0 <= k < i :: busy[k]
      {
        if !busy[i] {
          busy[i] := true;
          port := WORKER_PORT_BASE + i;
          break;
        }
        i := i + 1;
      }
    }

    /** The critical section of a worker that has served its client. */
    method Release(worker: nat)
      requires worker < busy.Length
      modifies busy
      ensures busy[..] == old(busy[..])[worker := false]
    {
      busy[worker] := false;
    }
  }

  // ---- clients, connections and workers

  /** A connection to a worker's port: by the client that was given the port, the first time,
      or any other one. */
  datatype Conn = Holder(grant: nat) | Stray

  datatype Stage = Accepting | Serving(conn: Conn) | Releasing(conn: Conn)

  /** `grants` maps each port given out and not yet released to its worker; `used` are the
      grants whose client has connected. */
  datatype State = State(
    busy: seq<bool>,
    grants: map<nat, nat>,
    used: set<nat>,
    backlog: seq<seq<Conn>>,
    stage: seq<Stage>,
    nextGrant: nat)

  datatype Action =
    | Reserve
    | Connect(grant: nat)
    | StrayConnect(worker: nat)
    | Accept(worker: nat)
    | Serve(worker: nat)
    | Release(worker: nat)

  ghost predicate Sized(s: State) {
    |s.backlog| == |s.busy| && |s.stage| == |s.busy|
  }

  ghost predicate Init(s: State) {
    && Sized(s) && s.grants == map[] && s.used == {}
    && (forall i | 0 <= i < |s.busy| :: !s.busy[i] && s.backlog[i] == [] && s.stage[i] == Accepting)
  }

  function Without(grants: map<nat, nat>, conn: Conn): map<nat, nat> {
    if conn.Holder? then grants - {conn.grant} else grants
  }

  ghost predicate Next(s: State, a: Action, s': State) {
    && Sized(s)
    && match a
       case Reserve =>
         var i := FirstFree(s.busy);
         if i == -1 then s' == s
         else s' == s.(busy := s.busy[i := true], grants := s.grants[s.nextGrant := i],
                       nextGrant := s.nextGrant + 1)
       case Connect(g) =>
         && g in s.grants && g !in s.used && s.grants[g] < |s.busy|
         && s' == s.(used := s.used + {g},
                     backlog := s.backlog[s.grants[g] := s.backlog[s.grants[g]] + [Holder(g)]])
       case StrayConnect(i) =>
         i < |s.busy| && s' == s.(backlog := s.backlog[i := s.backlog[i] + [Stray]])
       case Accept(i) =>
         && i < |s.busy| && s.stage[i].Accepting? && s.backlog[i] != []
         && s' == s.(stage := s.stage[i := Serving(s.backlog[i][0])],
                     backlog := s.backlog[i := s.backlog[i][1..]])
       case Serve(i) =>
         && i < |s.busy| && s.stage[i].Serving?
         && s' == s.(stage := s.stage[i := Releasing(s.stage[i].conn)])
       case Release(i) =>
         && i < |s.busy| && s.stage[i].Releasing?
         && s' == s.(busy := s.busy[i := false], stage := s.stage[i := Accepting],
                     grants := Without(s.grants, s.stage[i].conn))
  }

  // ---- invariants

  ghost predicate Holds(s: State, g: nat, i: nat) {
    g in s.grants && s.grants[g] == i
  }

  ghost predicate Promised(s: State, i: nat) {
    exists g :: Holds(s, g, i)
  }

  /** A worker is busy exactly when one port grant for it is outstanding, and never two. */
  ghost predicate Exclusive(s: State) {
    && (forall i | 0 <= i < |s.busy| :: s.busy[i] <==> Promised(s, i))
    && (forall g, h | g in s.grants && h in s.grants && s.grants[g] == s.grants[h] :: g == h)
  }

  /** The connections a worker has accepted or will accept, in order. */
  function Line(s: State, i: nat): seq<Conn>
    requires i < |s.backlog| && i < |s.stage|
  {
    (if s.stage[i].Accepting? then [] else [s.stage[i].conn]) + s.backlog[i]
  }

  /** Each holder in the line of worker i waits there once, for a grant still outstanding. */
  ghost predicate LineOk(line: seq<Conn>, grants: map<nat, nat>, used: set<nat>, i: nat) {
    && (forall k | 0 <= k < |line| && line[k].Holder? ::
          line[k].grant in grants && grants[line[k].grant] == i && line[k].grant in used)
    && (forall j, k | 0 <= j < k < |line| && line[j].Holder? :: line[j] != line[k])
  }

  ghost predicate Tracked(s: State) {
    && Sized(s)
    && (forall g | g in s.grants :: g < s.nextGrant && s.grants[g] < |s.busy|)
    && (forall g | g in s.used :: g < s.nextGrant)
    && (forall i | 0 <= i < |s.busy| :: LineOk(Line(s, i), s.grants, s.used, i))
  }

  lemma HolderJoins(line: seq<Conn>, grants: map<nat, nat>, used: set<nat>, i: nat, g: nat)
    requires LineOk(line, grants, used, i) && g in grants && grants[g] == i && g !in used
    ensures LineOk(line + [Holder(g)], grants, used + {g}, i)
  {
  }

  lemma StrayJoins(line: seq<Conn>, grants: map<nat, nat>, used: set<nat>, i: nat)
    requires LineOk(line, grants, used, i)
    ensures LineOk(line + [Stray], grants, used, i)
  {
  }

  lemma FirstLeaves(line: seq<Conn>, grants: map<nat, nat>, used: set<nat>, i: nat)
    requires LineOk(line, grants, used, i) && line != []
    ensures LineOk(line[1..], Without(grants, line[0]), used, i)
  {
  }

  lemma GrantOfAnother(line: seq<Conn>, grants: map<nat, nat>, used: set<nat>, i: nat, g: nat)
    requires LineOk(line, grants, used, i) && g in grants && grants[g] != i
    ensures LineOk(line, grants - {g}, used, i)
  {
  }

  lemma ConnectKeepsTracked(s: State, g: nat, s': State)
    requires Tracked(s) && Next(s, Connect(g), s')
    ensures Tracked(s')
  {
    var at := s.grants[g];
    forall i | 0 <= i < |s.busy|
      ensures LineOk(Line(s', i), s'.grants, s'.used, i)
    {
      if i == at {
        assert Line(s', i) == Line(s, i) + [Holder(g)];
        HolderJoins(Line(s, i), s.grants, s.used, i, g);
      } else {
        assert Line(s', i) == Line(s, i) && LineOk(Line(s, i), s.grants, s.used, i);
      }
    }
  }

  lemma StrayKeepsTracked(s: State, at: nat, s': State)
    requires Tracked(s) && Next(s, StrayConnect(at), s')
    ensures Tracked(s')
  {
    StrayJoins(Line(s, at), s.grants, s.used, at);
    forall i | 0 <= i < |s.busy|
      ensures Line(s', i) == if i == at then Line(s, i) + [Stray] else Line(s, i)
    {
    }
  }

  lemma WorkKeepsTracked(s: State, a: Action, s': State)
    requires Tracked(s) && Next(s, a, s') && (a.Accept? || a.Serve?)
    ensures Tracked(s')
  {
    forall i | 0 <= i < |s.busy| ensures Line(s', i) == Line(s, i) {
    }
  }

  lemma ReleaseKeepsTracked(s: State, at: nat, s': State)
    requires Tracked(s) && Next(s, Release(at), s')
    ensures Tracked(s')
  {
    var line, conn := Line(s, at), s.stage[at].conn;
    assert line[0] == conn && Line(s', at) == line[1..];
    assert LineOk(line, s.grants, s.used, at);
    FirstLeaves(line, s.grants, s.used, at);
    forall i | 0 <= i < |s.busy| && i != at
      ensures LineOk(Line(s', i), s'.grants, s'.used, i)
    {
      assert Line(s', i) == Line(s, i) && LineOk(Line(s, i), s.grants, s.used, i);
      if conn.Holder? {
        GrantOfAnother(Line(s, i), s.grants, s.used, i, conn.grant);
      }
    }
  }

  lemma ReserveKeepsTracked(s: State, s': State)
    requires Tracked(s) && Next(s, Reserve, s')
    ensures Tracked(s')
  {
    forall i | 0 <= i < |s.busy|
      ensures LineOk(Line(s', i), s'.grants, s'.used, i)
    {
      assert Line(s', i) == Line(s, i) && LineOk(Line(s, i), s.grants, s.used, i);
    }
  }

  lemma TrackedKept(s: State, a: Action, s': State)
    requires Tracked(s) && Next(s, a, s')
    ensures Tracked(s')
  {
    match a
    case Reserve => ReserveKeepsTracked(s, s');
    case Release(i) => ReleaseKeepsTracked(s, i, s');
    case Accept(_) => WorkKeepsTracked(s, a, s');
    case Serve(_) => WorkKeepsTracked(s, a, s');
    case Connect(g) => ConnectKeepsTracked(s, g, s');
    case StrayConnect(i) => StrayKeepsTracked(s, i, s');
  }

  /** The harmless steps, checkable before they are taken: only a worker that has just served
      a stranger, while its port is promised to somebody else, must not release itself. */
  predicate Harmless(s: State, a: Action) {
    a.Release? && a.worker < |s.busy| && a.worker < |s.stage| && s.stage[a.worker].Releasing? ==>
      s.stage[a.worker].conn.Holder? || !s.busy[a.worker]
  }

  lemma ReserveKeepsExclusive(s: State, s': State)
    requires Tracked(s) && Exclusive(s) && Next(s, Reserve, s')
    ensures Exclusive(s')
  {
    var i := FirstFree(s.busy);
    if i != -1 {
      assert Holds(s', s.nextGrant, i);
      assert forall g :: g in s.grants ==> !Holds(s, g, i);
      forall k | 0 <= k < |s.busy| && k != i
        ensures s'.busy[k] <==> Promised(s', k)
      {
        if s.busy[k] {
          var g :| Holds(s, g, k);
          assert Holds(s', g, k);
        } else {
          assert forall g :: Holds(s', g, k) ==> Holds(s, g, k);
        }
      }
    }
  }

  lemma ReleaseExact(s: State, i: nat, s': State)
    requires Tracked(s) && Exclusive(s) && Next(s, Release(i), s')
    ensures Exclusive(s') <==> Harmless(s, Release(i))
  {
    var conn := s.stage[i].conn;
    assert Line(s, i)[0] == conn && LineOk(Line(s, i), s.grants, s.used, i);
    forall k | 0 <= k < |s.busy| && k != i
      ensures s'.busy[k] <==> Promised(s', k)
    {
      if s.busy[k] {
        var g :| Holds(s, g, k);
        assert Holds(s', g, k);
      } else {
        assert forall g :: Holds(s', g, k) ==> Holds(s, g, k);
      }
    }
    if conn.Holder? {
      assert forall g :: Holds(s', g, i) ==> Holds(s, g, i);
      assert Holds(s, conn.grant, i);
    } else {
      assert forall g :: Holds(s', g, i) <==> Holds(s, g, i);
      assert Promised(s', i) <==> Promised(s, i);
    }
  }

  lemma StepExact(s: State, a: Action, s': State)
    requires Tracked(s) && Exclusive(s) && Next(s, a, s')
    ensures Tracked(s')
    ensures Exclusive(s') <==> Harmless(s, a)
  {
    TrackedKept(s, a, s');
    match a
    case Reserve => ReserveKeepsExclusive(s, s');
    case Release(i) => ReleaseExact(s, i, s');
    case _ => assert forall g, i :: Holds(s', g, i) <==> Holds(s, g, i);
  }

  // ---- whole runs

  ghost predicate Run(states: seq<State>, actions: seq<Action>) {
    && |states| == |actions| + 1 && Init(states[0])
    && forall k | 0 <= k < |actions| :: Next(states[k], actions[k], states[k + 1])
  }

  ghost predicate HarmlessUpTo(states: seq<State>, actions: seq<Action>, n: nat)
    requires n <= |actions| < |states|
  {
    forall k | 0 <= k < n :: Harmless(states[k], actions[k])
  }

  /** Reservations stay exclusive throughout a run if and only if every step is harmless. */
  lemma {:induction false} RunExact(states: seq<State>, actions: seq<Action>, n: nat)
    requires Run(states, actions) && n <= |actions|
    ensures forall k | 0 <= k <= n :: Tracked(states[k])
    ensures (forall k | 0 <= k <= n :: Exclusive(states[k])) <==> HarmlessUpTo(states, actions, n)
  {
    if n > 0 {
      RunExact(states, actions, n - 1);
      TrackedKept(states[n - 1], actions[n - 1], states[n]);
      if HarmlessUpTo(states, actions, n - 1) {
        StepExact(states[n - 1], actions[n - 1], states[n]);
      }
    } else {
      assert forall g, i :: !Holds(states[0], g, i);
    }
  }

  ghost predicate AllHolders(line: seq<Conn>) {
    forall k | 0 <= k < |line| :: line[k].Holder?
  }

  ghost predicate NoStrays(s: State) {
    Sized(s) && forall i | 0 <= i < |s.busy| :: AllHolders(Line(s, i))
  }

  lemma StrayFreeStep(s: State, a: Action, s': State)
    requires NoStrays(s) && Next(s, a, s') && !a.StrayConnect?
    ensures NoStrays(s') && Harmless(s, a)
  {
    if a.Release? {
      assert AllHolders(Line(s, a.worker)) && Line(s, a.worker)[0] == s.stage[a.worker].conn;
    }
    forall i | 0 <= i < |s.busy| ensures AllHolders(Line(s', i)) {
      assert AllHolders(Line(s, i));
      if a.Connect? && s.grants[a.grant] == i {
        assert Line(s', i) == Line(s, i) + [Holder(a.grant)];
      } else if a == Release(i) {
        assert Line(s', i) == Line(s, i)[1..];
      } else {
        assert Line(s', i) == Line(s, i);
      }
    }
  }

  /** Clients that connect once, to the port they were given, are always harmless. */
  lemma {:induction false} PoliteClients(states: seq<State>, actions: seq<Action>, n: nat)
    requires Run(states, actions) && n <= |actions|
    requires forall k | 0 <= k < n :: !actions[k].StrayConnect?
    ensures NoStrays(states[n]) && HarmlessUpTo(states, actions, n)
  {
    if n > 0 {
      PoliteClients(states, actions, n - 1);
      StrayFreeStep(states[n - 1], actions[n - 1], states[n]);
    }
  }

  /** With polite clients BUSY is answered only when every worker has a grant outstanding, and
      a port is given out only when it has none. */
  lemma AnswersAreRight(states: seq<State>, actions: seq<Action>, n: nat)
    requires Run(states, actions) && n <= |actions|
    requires forall k | 0 <= k < n :: !actions[k].StrayConnect?
    ensures var s, i := states[n], FirstFree(states[n].busy);
            && (i == -1 <==> forall w | 0 <= w < |s.busy| :: Promised(s, w))
            && (i != -1 ==> !Promised(s, i))
  {
    PoliteClients(states, actions, n);
    RunExact(states, actions, n);
    assert Exclusive(states[n]);
  }

  /** A stranger breaks exclusivity: connect to a free worker's port, let the listener promise
      that port while the stranger is served, and the worker frees itself. */
  lemma StrangerBreaksIt(s0: State) returns (states: seq<State>, actions: seq<Action>)
    requires Init(s0) && |s0.busy| > 0
    ensures Run(states, actions) && states[0] == s0
    ensures !Exclusive(states[|actions|])
  {
    var s1 := s0.(backlog := s0.backlog[0 := s0.backlog[0] + [Stray]]);
    var s2 := s1.(stage := s1.stage[0 := Serving(Stray)], backlog := s1.backlog[0 := s1.backlog[0][1..]]);
    var s3 := s2.(stage := s2.stage[0 := Releasing(Stray)]);
    assert FirstFree(s3.busy) == 0;
    var s4 := s3.(busy := s3.busy[0 := true], grants := s3.grants[s3.nextGrant := 0],
                  nextGrant := s3.nextGrant + 1);
    var s5 := s4.(busy := s4.busy[0 := false], stage := s4.stage[0 := Accepting]);
    states := [s0, s1, s2, s3, s4, s5];
    actions := [StrayConnect(0), Accept(0), Serve(0), Reserve, Release(0)];
    assert Holds(s5, s3.nextGrant, 0) && Promised(s5, 0) && !s5.busy[0];
  }
}
