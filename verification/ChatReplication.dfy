/** The message-queue chat as a whole (lab 13): the server, the lines it still
    has to send, and every client with its queue and its copy of the user list.
    Lines are sent one at a time and a full queue holds the server up. */
module ChatReplication {
  import opened ChatTypes
  import opened Memory
  import opened ChatWire
  import opened ChatServer

  const QUEUE_CAPACITY := 10

  /** A client process: its copy of the user list and its unread messages. */
  datatype Client = Client(users: seq<string>, queue: seq<string>)

  datatype System = System(table: seq<User>, outbox: seq<Send>, clients: map<int, Client>)

  datatype Action =
    | Handle(req: Request, queueOpens: bool)  // the server takes one request
    | Deliver                                 // the next mq_send goes through
    | Receive(pid: int)                       // a client reads one message
    | Start(pid: int, users: seq<string>)     // a client makes its queue anew

  ghost predicate Next(s: System, a: Action, s': System) {
    match a
    case Handle(req, queueOpens) =>
      && s.outbox == []
      && (queueOpens ==> req.pid in s.clients)
      && s' == s.(table := TableAfter(s.table, req, queueOpens),
                  outbox := SendsFor(s.table, req, queueOpens))
    case Deliver =>
      && s.outbox != [] && s.outbox[0].pid in s.clients
      && var to := s.clients[s.outbox[0].pid];
      && |to.queue| < QUEUE_CAPACITY
      && s' == s.(outbox := s.outbox[1..],
                  clients := s.clients[s.outbox[0].pid := to.(queue := to.queue + [s.outbox[0].line])])
    case Receive(pid) =>
      && pid in s.clients && s.clients[pid].queue != []
      && var c := s.clients[pid];
      && s' == s.(clients := s.clients[pid := Client(ApplyLine(c.users, c.queue[0]), c.queue[1..])])
    case Start(pid, users) =>
      && IndexOfPid(s.table, pid) == -1
      && s' == s.(clients := s.clients[pid := Client(users, [])])
  }

  // ---- what a client will come to believe

  function Pending(outbox: seq<Send>, pid: int): seq<string> {
    if outbox == [] then []
    else (if outbox[0].pid == pid then [outbox[0].line] else []) + Pending(outbox[1..], pid)
  }

  /** The list a client ends with if nothing more is sent to it. */
  function View(s: System, pid: int): seq<string>
    requires pid in s.clients
  {
    ApplyLines(s.clients[pid].users, s.clients[pid].queue + Pending(s.outbox, pid))
  }

  ghost predicate Connected(s: System) {
    forall i | 0 <= i < |s.table| :: s.table[i].pid in s.clients
  }

  /** Every registered client agrees with the server once it has caught up. */
  ghost predicate Synced(s: System) {
    Connected(s) && forall i | 0 <= i < |s.table| :: View(s, s.table[i].pid) == NamesOf(s.table)
  }

  ghost predicate Proper(table: seq<User>) {
    && |table| <= MAX_CLIENTS
    && (forall i, j | 0 <= i < j < |table| :: table[i].pid != table[j].pid)
    && (forall i, j | 0 <= i < j < |table| :: table[i].name != table[j].name)
    && (forall i | 0 <= i < |table| :: table[i].name != "" && !Reserved(table[i].name))
  }

  ghost predicate Good(s: System) {
    Proper(s.table) && Synced(s)
  }

  /** The requests that clients can follow, checkable before the request is served:
      a new name must be non-empty, unused and not reserved; a JOIN that registers
      nobody and a chat text must announce nobody new and remove nobody. */
  predicate Faithful(table: seq<User>, req: Request, queueOpens: bool) {
    match req.command
    case JOIN =>
      if Registers(table, req) then
        queueOpens ==> req.name != "" && req.name !in NamesOf(table) && !Reserved(req.name)
      else
        NeutralJoin(NamesOf(table), req.name)
    case TEXT => table == [] || NeutralText(NamesOf(table), req.name, req.text)
    case LEAVE => true
    case OTHER => true
  }

  // ---- what one service line does to an agreed list

  lemma OwnIndex(table: seq<User>, i: nat)
    requires Proper(table) && i < |table|
    ensures IndexOf(NamesOf(table), table[i].name) == i
  {
    assert NamesOf(table)[i] == table[i].name;
  }

  lemma NamesWithout(table: seq<User>, i: nat)
    requires i < |table|
    ensures DropAt(NamesOf(table), i) == NamesOf(DropAt(table, i))
  {
  }

  lemma LeaveLineEffect(table: seq<User>, i: nat)
    requires Proper(table) && i < |table|
    ensures ApplyLine(NamesOf(table), LeaveLine(table[i].name)) == NamesOf(DropAt(table, i))
  {
    LeaveLineParses(table[i].name);
    OwnIndex(table, i);
    NamesWithout(table, i);
  }

  function UserLineTexts(table: seq<User>): seq<string> {
    seq(|table|, i requires 0 <= i < |table| => UserLine(table[i].name))
  }

  lemma ListOne(table: seq<User>, k: nat)
    requires Proper(table) && k < |table|
    ensures ApplyLine(NamesOf(table)[..k], UserLine(table[k].name)) == NamesOf(table)[..k + 1]
  {
    var users, n := NamesOf(table)[..k], table[k].name;
    UserLineParses(n);
    assert forall i | 0 <= i < k :: users[i] == table[i].name;
    assert n !in users && NamesOf(table)[..k + 1] == users + [n];
  }

  lemma LinesUpTo(table: seq<User>, k: nat)
    requires 0 < k <= |table|
    ensures UserLineTexts(table)[..k] == UserLineTexts(table)[..k - 1] + [UserLine(table[k - 1].name)]
  {
  }

  /** Listing proper names one by one rebuilds them in order. */
  lemma {:induction false} ListingRebuilds(table: seq<User>, k: nat)
    requires Proper(table) && k <= |table|
    ensures ApplyLines([], UserLineTexts(table)[..k]) == NamesOf(table)[..k]
  {
    if k > 0 {
      ListingRebuilds(table, k - 1);
      var before, line := UserLineTexts(table)[..k - 1], UserLine(table[k - 1].name);
      LinesUpTo(table, k);
      ApplyLinesAppend([], before, [line]);
      ApplyOne(NamesOf(table)[..k - 1], line);
      ListOne(table, k - 1);
    }
  }

  lemma ApplyOne(users: seq<string>, line: string)
    ensures ApplyLines(users, [line]) == ApplyLine(users, line)
  {
  }

  /** A snapshot makes any client's list equal to the server's. */
  lemma SnapshotRestores(users: seq<string>, table: seq<User>)
    requires Proper(table)
    ensures ApplyLines(users, [USERS_RESET] + UserLineTexts(table)) == NamesOf(table)
  {
    var lines := UserLineTexts(table);
    ApplyLinesAppend(users, [USERS_RESET], lines);
    assert ApplyLine(users, USERS_RESET) == [];
    ListingRebuilds(table, |table|);
    assert lines[..|table|] == lines && NamesOf(table)[..|table|] == NamesOf(table);
  }

  // ---- what a client gets from one handled request

  lemma {:induction false} PendingAppend(a: seq<Send>, b: seq<Send>, pid: int)
    ensures Pending(a + b, pid) == Pending(a, pid) + Pending(b, pid)
    decreases |a|
  {
    if a == [] {
      assert a + b == b;
    } else {
      assert (a + b)[0] == a[0] && (a + b)[1..] == a[1..] + b;
      PendingAppend(a[1..], b, pid);
    }
  }

  lemma {:induction false} PendingBroadcast(table: seq<User>, line: Text, pid: int)
    requires forall i, j | 0 <= i < j < |table| :: table[i].pid != table[j].pid
    ensures Pending(Broadcast(table, line), pid) == if IndexOfPid(table, pid) == -1 then [] else [line]
    decreases |table|
  {
    if table != [] {
      assert Broadcast(table, line)[1..] == Broadcast(table[1..], line);
      PendingBroadcast(table[1..], line, pid);
    }
  }

  lemma FirstUserLine(table: seq<User>)
    requires table != []
    ensures UserLineTexts(table) == [UserLine(table[0].name)] + UserLineTexts(table[1..])
  {
  }

  lemma {:induction false} PendingUserLines(to: int, table: seq<User>, pid: int)
    ensures Pending(UserLines(to, table), pid) == if pid == to then UserLineTexts(table) else []
    decreases |table|
  {
    if table != [] {
      var first := UserLine(table[0].name);
      assert UserLines(to, table)[0] == Send(to, first);
      assert UserLines(to, table)[1..] == UserLines(to, table[1..]);
      PendingUserLines(to, table[1..], pid);
      FirstUserLine(table);
    }
  }

  lemma PendingSnapshot(to: int, table: seq<User>, pid: int)
    ensures Pending(Snapshot(to, table), pid) ==
            if pid == to then [USERS_RESET] + UserLineTexts(table) else []
  {
    var first := Send(to, USERS_RESET);
    PendingAppend([first], UserLines(to, table), pid);
    PendingUserLines(to, table, pid);
    assert [first][1..] == [];
  }

  ghost predicate DistinctPids(table: seq<User>) {
    forall i, j | 0 <= i < j < |table| :: table[i].pid != table[j].pid
  }

  lemma PidsStayDistinct(table: seq<User>, req: Request, queueOpens: bool)
    requires DistinctPids(table)
    ensures DistinctPids(TableAfter(table, req, queueOpens))
  {
  }

  predicate Listed(table: seq<User>, pid: int) {
    IndexOfPid(table, pid) != -1
  }

  /** Who is registered after a request: a JOIN adds its sender while fewer than 16 are there
      and its queue opens, a LEAVE takes its sender away, and nobody else comes or goes. */
  lemma ListedAfter(table: seq<User>, req: Request, queueOpens: bool, pid: int)
    requires DistinctPids(table)
    ensures Listed(TableAfter(table, req, queueOpens), pid) <==>
            if pid != req.pid then Listed(table, pid)
            else match req.command
                 case JOIN => Listed(table, pid) || (queueOpens && |table| < 16)
                 case LEAVE => false
                 case _ => Listed(table, pid)
  {
    var after := TableAfter(table, req, queueOpens);
    if req.command == LEAVE && Listed(table, req.pid) {
      ListedAfterDrop(table, IndexOfPid(table, req.pid), pid);
    } else if Registers(table, req) && queueOpens {
      var k, m := IndexOfPid(table, pid), IndexOfPid(after, pid);
      assert after[|table|].pid == req.pid && (k != -1 ==> after[k] == table[k]);
      assert m != -1 && m < |table| ==> after[m] == table[m];
    }
  }

  /** A chat text: one line to each registered client, with the sender's name and the text. */
  lemma TextReaches(table: seq<User>, req: Request, queueOpens: bool, pid: int)
    requires DistinctPids(table) && req.command == TEXT
    ensures var got := Pending(SendsFor(table, req, queueOpens), pid);
            if !Listed(table, pid) then got == []
            else
              && |got| == 1 && req.name + ": " <= got[0] && got[0][|req.name| + 2..] <= req.text
              && |got[0]| == if |req.name| + 2 + |req.text| < 256 then |req.name| + 2 + |req.text| else 255
  {
    PendingBroadcast(table, TextLine(req.name, req.text), pid);
    TextLineCarries(req.name, req.text);
  }

  /** A JOIN, at a full table too: nothing if the queue does not open; otherwise the snapshot
      to the sender, if it is registered by then, and after it the line to everybody. */
  lemma JoinReaches(table: seq<User>, req: Request, queueOpens: bool, pid: int)
    requires DistinctPids(table) && req.command == JOIN
    ensures var got, after := Pending(SendsFor(table, req, queueOpens), pid), TableAfter(table, req, queueOpens);
            if Registers(table, req) && !queueOpens then got == []
            else if !Listed(after, pid) then got == []
            else if pid == req.pid then
              got == ["@@users-reset"] + UserLineTexts(after) + [req.name + " joined the chat"]
            else got == [req.name + " joined the chat"]
  {
    var after, line := TableAfter(table, req, queueOpens), JoinLine(req.name);
    PidsStayDistinct(table, req, queueOpens);
    ServiceLinesWhole(req.name);
    PendingBroadcast(after, line, pid);
    PendingAppend(Snapshot(req.pid, after), Broadcast(after, line), pid);
    PendingSnapshot(req.pid, after, pid);
  }

  lemma UserLinesSay(table: seq<User>, i: nat)
    requires i < |table|
    ensures |UserLineTexts(table)| == |table| && UserLineTexts(table)[i] == "@@user " + table[i].name
  {
    ServiceLinesWhole(table[i].name);
  }

  /** A LEAVE: the name the sender registered with, to everybody who stays. */
  lemma LeaveReaches(table: seq<User>, req: Request, queueOpens: bool, pid: int)
    requires DistinctPids(table) && req.command == LEAVE
    ensures var got, i := Pending(SendsFor(table, req, queueOpens), pid), IndexOfPid(table, req.pid);
            got == if i == -1 || pid == req.pid || !Listed(table, pid) then []
                   else [table[i].name + " left the chat"]
  {
    var i := IndexOfPid(table, req.pid);
    if i != -1 {
      PidsStayDistinct(table, req, queueOpens);
      ServiceLinesWhole(table[i].name);
      PendingBroadcast(DropAt(table, i), LeaveLine(table[i].name), pid);
      ListedAfterDrop(table, i, pid);
    }
  }

  lemma ListedAfterDrop(table: seq<User>, i: nat, pid: int)
    requires DistinctPids(table) && i < |table|
    ensures Listed(DropAt(table, i), pid) <==> Listed(table, pid) && pid != table[i].pid
  {
    var d, k := DropAt(table, i), IndexOfPid(table, pid);
    assert IndexOfPid(d, pid) != -1 ==>
        d[IndexOfPid(d, pid)] == table[if IndexOfPid(d, pid) < i then IndexOfPid(d, pid) else IndexOfPid(d, pid) + 1];
    assert k != -1 && k != i ==> d[if k < i then k else k - 1] == table[k];
  }

  /** Handling a request with nothing left to send extends every client's view. */
  lemma ViewAfter(s: System, s': System, pid: int)
    requires s.outbox == [] && s'.clients == s.clients && pid in s.clients
    ensures View(s', pid) == ApplyLines(View(s, pid), Pending(s'.outbox, pid))
  {
    var c := s.clients[pid];
    assert c.queue + Pending(s.outbox, pid) == c.queue;
    ApplyLinesAppend(c.users, c.queue, Pending(s'.outbox, pid));
  }

  lemma Registered(table: seq<User>, i: nat)
    requires Proper(table) && i < |table|
    ensures IndexOfPid(table, table[i].pid) == i
  {
  }

  /** After a plain broadcast everyone agrees exactly when the line turns the old
      list into the new one. */
  lemma BroadcastSyncs(s: System, s': System, line: Text)
    requires Good(s) && s.outbox == [] && s'.clients == s.clients
    requires Proper(s'.table) && s'.outbox == Broadcast(s'.table, line)
    requires forall i | 0 <= i < |s'.table| :: s'.table[i] in s.table
    ensures Synced(s') <==>
            s'.table == [] || ApplyLine(NamesOf(s.table), line) == NamesOf(s'.table)
  {
    forall i | 0 <= i < |s'.table|
      ensures s'.table[i].pid in s.clients
      ensures View(s', s'.table[i].pid) == ApplyLine(NamesOf(s.table), line)
    {
      var pid := s'.table[i].pid;
      var k :| 0 <= k < |s.table| && s.table[k] == s'.table[i];
      assert View(s, s.table[k].pid) == NamesOf(s.table);
      ViewAfter(s, s', pid);
      PendingBroadcast(s'.table, line, pid);
      Registered(s'.table, i);
      ApplyOne(NamesOf(s.table), line);
    }
    if s'.table != [] {
      assert View(s', s'.table[0].pid) == ApplyLine(NamesOf(s.table), line);
    }
  }

  /** A client that joins again is given a snapshot first; the others only the line. */
  lemma RejoinSyncs(s: System, s': System, req: Request)
    requires Good(s) && s.outbox == [] && s'.clients == s.clients && s'.table == s.table
    requires IndexOfPid(s.table, req.pid) != -1
    requires s'.outbox == Snapshot(req.pid, s.table) + Broadcast(s.table, JoinLine(req.name))
    ensures Synced(s') <==> NeutralJoin(NamesOf(s.table), req.name)
  {
    var line, names := JoinLine(req.name), NamesOf(s.table);
    forall i | 0 <= i < |s.table|
      ensures View(s', s.table[i].pid) == ApplyLine(names, line)
    {
      var pid := s.table[i].pid;
      ViewAfter(s, s', pid);
      JoinPending(s.table, req.pid, line, i);
      SnapshotThenLine(View(s, pid), s.table, line);
      assert View(s, pid) == names;
      ApplyOne(names, line);
    }
    JoinLineEffect(names, req.name);
    assert View(s', s.table[IndexOfPid(s.table, req.pid)].pid) == ApplyLine(names, line);
  }

  lemma JoinPending(table: seq<User>, to: int, line: Text, i: nat)
    requires i < |table| && forall j, k | 0 <= j < k < |table| :: table[j].pid != table[k].pid
    ensures Pending(Snapshot(to, table) + Broadcast(table, line), table[i].pid) ==
            (if table[i].pid == to then [USERS_RESET] + UserLineTexts(table) else []) + [line]
  {
    PendingAppend(Snapshot(to, table), Broadcast(table, line), table[i].pid);
    PendingSnapshot(to, table, table[i].pid);
    PendingBroadcast(table, line, table[i].pid);
  }

  lemma SnapshotThenLine(users: seq<string>, table: seq<User>, line: string)
    requires Proper(table)
    ensures ApplyLines(users, [USERS_RESET] + UserLineTexts(table) + [line]) == ApplyLine(NamesOf(table), line)
  {
    ApplyLinesAppend(users, [USERS_RESET] + UserLineTexts(table), [line]);
    SnapshotRestores(users, table);
    ApplyOne(NamesOf(table), line);
  }

  lemma NewcomerKeepsProper(table: seq<User>, user: User)
    requires Proper(table) && |table| < MAX_CLIENTS && IndexOfPid(table, user.pid) == -1
    requires user.name != "" && user.name !in NamesOf(table) && !Reserved(user.name)
    ensures Proper(table + [user]) && NamesOf(table + [user]) == NamesOf(table) + [user.name]
  {
    var after := table + [user];
    assert forall i | 0 <= i < |after| :: after[i] == if i < |table| then table[i] else user;
    forall i | 0 <= i < |table| ensures after[i].name != user.name && after[i].pid != user.pid {
      assert NamesOf(table)[i] == table[i].name;
    }
    assert NamesOf(after) == NamesOf(table) + [user.name];
  }

  /** An admissible newcomer: everybody else appends the name, the newcomer starts
      from the snapshot and takes the line for old news. */
  lemma RegisterKeepsGood(s: System, s': System, req: Request)
    requires Good(s) && Next(s, Handle(req, true), s')
    requires Registers(s.table, req) && Faithful(s.table, req, true)
    ensures Good(s')
  {
    var names, after := NamesOf(s.table), s'.table;
    NewcomerKeepsProper(s.table, User(req.pid, req.name));
    JoinLineEffect(names, req.name);
    JoinLineEffect(NamesOf(after), req.name);
    forall i | 0 <= i < |after|
      ensures after[i].pid in s'.clients && View(s', after[i].pid) == NamesOf(after)
    {
      assert i < |s.table| ==> after[i] == s.table[i] && View(s, s.table[i].pid) == names;
      JoinedView(s, s', req, i);
    }
  }

  lemma JoinedView(s: System, s': System, req: Request, i: nat)
    requires Next(s, Handle(req, true), s') && Registers(s.table, req)
    requires Proper(s'.table) && i < |s'.table| && s'.table[i].pid in s.clients
    ensures View(s', s'.table[i].pid) ==
            ApplyLine(if i == |s.table| then NamesOf(s'.table) else View(s, s'.table[i].pid), JoinLine(req.name))
  {
    var line, pid := JoinLine(req.name), s'.table[i].pid;
    ViewAfter(s, s', pid);
    Registered(s'.table, |s.table|);
    JoinPending(s'.table, req.pid, line, i);
    if i == |s.table| {
      SnapshotThenLine(View(s, pid), s'.table, line);
    } else {
      assert [] + [line] == [line];
      ApplyOne(View(s, pid), line);
    }
  }

  /** A newcomer with an empty, used or reserved name leaves somebody out of step. */
  lemma RegisterBreaksSync(s: System, s': System, req: Request)
    requires Good(s) && Next(s, Handle(req, true), s')
    requires Registers(s.table, req) && !Faithful(s.table, req, true)
    ensures !Synced(s')
  {
    var pid := s'.table[0].pid;
    ViewAfter(s, s', pid);
    if s.table == [] {
      JoinPending(s'.table, req.pid, JoinLine(req.name), 0);
      LonelyNewcomer(View(s, pid), req);
    } else {
      OthersMishear(s, s', req);
    }
  }

  lemma OthersMishear(s: System, s': System, req: Request)
    requires Good(s) && Next(s, Handle(req, true), s') && s.table != []
    requires Registers(s.table, req) && !Faithful(s.table, req, true)
    ensures View(s', s.table[0].pid) != NamesOf(s'.table)
  {
    FirstView(s, s', req);
    NotTheNewList(s.table, req);
  }

  lemma FirstView(s: System, s': System, req: Request)
    requires Good(s) && Next(s, Handle(req, true), s') && s.table != [] && Registers(s.table, req)
    ensures View(s', s.table[0].pid) == ApplyLine(NamesOf(s.table), JoinLine(req.name))
  {
    var pid := s.table[0].pid;
    ViewAfter(s, s', pid);
    FirstHearsLine(s.table, req);
    assert View(s, pid) == NamesOf(s.table);
    ApplyOne(NamesOf(s.table), JoinLine(req.name));
  }

  lemma NotTheNewList(table: seq<User>, req: Request)
    requires Registers(table, req) && !Faithful(table, req, true)
    ensures ApplyLine(NamesOf(table), JoinLine(req.name)) != NamesOf(TableAfter(table, req, true))
  {
    JoinLineEffect(NamesOf(table), req.name);
    assert NamesOf(table + [User(req.pid, req.name)]) == NamesOf(table) + [req.name];
  }

  lemma FirstHearsLine(table: seq<User>, req: Request)
    requires Proper(table) && table != [] && Registers(table, req)
    ensures Pending(SendsFor(table, req, true), table[0].pid) == [JoinLine(req.name)]
  {
    var after, line := TableAfter(table, req, true), JoinLine(req.name);
    PendingAppend(Snapshot(req.pid, after), Broadcast(after, line), table[0].pid);
    PendingSnapshot(req.pid, after, table[0].pid);
    PendingBroadcast(after, line, table[0].pid);
  }

  lemma LonelyNewcomer(users: seq<string>, req: Request)
    requires req.name == "" || Reserved(req.name)
    ensures var table := [User(req.pid, req.name)];
            ApplyLines(users, [USERS_RESET] + UserLineTexts(table) + [JoinLine(req.name)]) != NamesOf(table)
  {
    var n, table := req.name, [User(req.pid, req.name)];
    var lines := [USERS_RESET] + UserLineTexts(table) + [JoinLine(n)];
    assert lines == [USERS_RESET, UserLine(n), JoinLine(n)];
    assert lines[1..] == [UserLine(n), JoinLine(n)] && lines[1..][1..] == [JoinLine(n)];
    UserLineParses(n);
    var listed := AddUser([], n);
    ApplyOne(listed, JoinLine(n));
    assert ApplyLines(users, lines) == ApplyLine(listed, JoinLine(n));
    JoinLineEffect(listed, n);
    if Reserved(n) {
      assert listed == [n];
      assert |(n + JOIN_SUFFIX)[|USER_PREFIX|..]| == |n| + 9;
      assert NamesOf(table) == [n];
    } else {
      assert listed == [] && NamesOf(table) == [""];
    }
  }

  lemma DropKeepsProper(table: seq<User>, i: nat)
    requires Proper(table) && i < |table|
    ensures Proper(DropAt(table, i))
    ensures forall k | 0 <= k < |table| - 1 :: DropAt(table, i)[k] in table
  {
  }

  lemma LeaveKeepsGood(s: System, s': System, req: Request, queueOpens: bool)
    requires Good(s) && Next(s, Handle(req, queueOpens), s')
    requires req.command == LEAVE && IndexOfPid(s.table, req.pid) != -1
    ensures Good(s')
  {
    var i := IndexOfPid(s.table, req.pid);
    DropKeepsProper(s.table, i);
    LeaveLineEffect(s.table, i);
    BroadcastSyncs(s, s', LeaveLine(s.table[i].name));
  }

  // ---- the main results

  /** One request, every case: the clients can still catch up with the server if and
      only if the request is faithful, and then the table stays proper. */
  lemma HandleExact(s: System, s': System, req: Request, queueOpens: bool)
    requires Good(s) && Next(s, Handle(req, queueOpens), s')
    ensures Synced(s') <==> Faithful(s.table, req, queueOpens)
    ensures Good(s') <==> Faithful(s.table, req, queueOpens)
  {
    match req.command
    case JOIN =>
      if Registers(s.table, req) {
        if queueOpens {
          if Faithful(s.table, req, true) {
            RegisterKeepsGood(s, s', req);
          } else {
            RegisterBreaksSync(s, s', req);
          }
        } else {
          assert s' == s;
        }
      } else if IndexOfPid(s.table, req.pid) != -1 {
        RejoinSyncs(s, s', req);
      } else {
        BroadcastSyncs(s, s', JoinLine(req.name));
        JoinLineEffect(NamesOf(s.table), req.name);
      }
    case LEAVE =>
      if IndexOfPid(s.table, req.pid) != -1 {
        LeaveKeepsGood(s, s', req, queueOpens);
      } else {
        assert s' == s;
      }
    case TEXT =>
      BroadcastSyncs(s, s', TextLine(req.name, req.text));
      NeutralTextExact(NamesOf(s.table), req.name, req.text);
    case OTHER =>
      assert s' == s;
  }

  lemma DeliverKeepsView(s: System, s': System, pid: int)
    requires Next(s, Deliver, s') && pid in s.clients
    ensures View(s', pid) == View(s, pid)
  {
    var queue, line, rest := s.clients[pid].queue, s.outbox[0].line, Pending(s'.outbox, pid);
    if s.outbox[0].pid == pid {
      assert queue + [line] + rest == queue + ([line] + rest);
    } else {
      assert [] + rest == rest;
    }
  }

  lemma ReceiveKeepsView(s: System, s': System, reader: int, pid: int)
    requires Next(s, Receive(reader), s') && pid in s.clients
    ensures View(s', pid) == View(s, pid)
  {
    var queue, rest := s.clients[pid].queue, Pending(s.outbox, pid);
    if reader == pid {
      assert (queue + rest)[0] == queue[0] && (queue + rest)[1..] == queue[1..] + rest;
    }
  }

  /** Sending, reading and starting a client never cost anything. */
  lemma TransportKeepsGood(s: System, a: Action, s': System)
    requires Good(s) && Next(s, a, s') && !a.Handle?
    ensures Good(s')
  {
    forall i | 0 <= i < |s.table|
      ensures s.table[i].pid in s'.clients && View(s', s.table[i].pid) == View(s, s.table[i].pid)
    {
      match a
      case Deliver => DeliverKeepsView(s, s', s.table[i].pid);
      case Receive(reader) => ReceiveKeepsView(s, s', reader, s.table[i].pid);
      case Start(_, _) => Registered(s.table, i);
    }
  }

  /** Ordinary use is faithful: a listed sender whose plain name is not reserved, and a
      text that neither ends in service words nor, so cut, could be taken for such a line. */
  lemma OrdinaryTextIsFaithful(table: seq<User>, req: Request)
    requires req.command == TEXT && req.name in NamesOf(table)
    requires req.name != "" && Plain(req.name) && !(USER_PREFIX <= req.name)
    requires !TypedAs(req.text, JOIN_SUFFIX) && !TypedAs(req.text, LEAVE_SUFFIX)
    ensures Faithful(table, req, true)
  {
    ListedSenderExact(NamesOf(table), req.name, req.text);
    NeutralTextExact(NamesOf(table), req.name, req.text);
  }

  /** A run of the whole system. */
  ghost predicate Run(states: seq<System>, actions: seq<Action>) {
    && |states| == |actions| + 1
    && states[0].table == [] && states[0].outbox == []
    && forall i | 0 <= i < |actions| :: Next(states[i], actions[i], states[i + 1])
  }

  /** The first n steps serve faithful requests only. */
  ghost predicate FaithfulUpTo(states: seq<System>, actions: seq<Action>, n: nat)
    requires n <= |actions| < |states|
  {
    forall i | 0 <= i < n ::
      actions[i].Handle? ==> Faithful(states[i].table, actions[i].req, actions[i].queueOpens)
  }

  /** Whole runs: the clients stay in step throughout if and only if every request is faithful. */
  lemma {:induction false} RunExact(states: seq<System>, actions: seq<Action>, n: nat)
    requires Run(states, actions) && n <= |actions|
    ensures (forall i | 0 <= i <= n :: Synced(states[i])) <==> FaithfulUpTo(states, actions, n)
    ensures FaithfulUpTo(states, actions, n) ==> forall i | 0 <= i <= n :: Good(states[i])
  {
    if n > 0 {
      RunExact(states, actions, n - 1);
      if FaithfulUpTo(states, actions, n - 1) {
        StepExact(states[n - 1], actions[n - 1], states[n]);
      }
    }
  }

  lemma StepExact(s: System, a: Action, s': System)
    requires Good(s) && Next(s, a, s')
    ensures Synced(s') <==> (a.Handle? ==> Faithful(s.table, a.req, a.queueOpens))
    ensures Good(s') <==> Synced(s')
  {
    if a.Handle? {
      HandleExact(s, s', a.req, a.queueOpens);
    } else {
      TransportKeepsGood(s, a, s');
    }
  }

  /** A registered client that has read everything shows exactly the server's list. */
  lemma CaughtUpAgrees(states: seq<System>, actions: seq<Action>, k: nat, i: nat)
    requires Run(states, actions) && k <= |actions| && FaithfulUpTo(states, actions, k)
    requires i < |states[k].table|
    requires states[k].table[i].pid in states[k].clients
    requires states[k].clients[states[k].table[i].pid].queue == []
    requires Pending(states[k].outbox, states[k].table[i].pid) == []
    ensures states[k].clients[states[k].table[i].pid].users == NamesOf(states[k].table)
  {
    RunExact(states, actions, k);
    assert View(states[k], states[k].table[i].pid) == NamesOf(states[k].table);
  }
}
