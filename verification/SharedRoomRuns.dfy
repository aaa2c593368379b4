/** Whole runs of the shared-memory chat (lab 14): clients queue commands, the server
    replays them, and clients cache the room behind its version counter. Every step
    is one stretch of code between taking and releasing the room's lock. */
module SharedRoomRuns {
  import opened ChatTypes
  import opened Options
  import opened Memory
  import opened LineWindow
  import opened SharedRoom
  import opened SharedRoomClient

  const NOTICE := "Failed to send message"

  // ---- the room as a replay of the processed commands

  function Replay(reqs: seq<Request>): Room {
    if reqs == [] then EMPTY_ROOM else Process(Replay(reqs[..|reqs| - 1]), reqs[|reqs| - 1])
  }

  /** Every line the commands ever added, oldest first. */
  function Log(reqs: seq<Request>): seq<string> {
    if reqs == [] then []
    else
      var before := reqs[..|reqs| - 1];
      match LineFor(Replay(before).users, reqs[|reqs| - 1])
      case None => Log(before)
      case Some(line) => Log(before) + [line]
  }

  predicate DistinctPids(users: seq<User>) {
    forall i, j | 0 <= i < j < |users| :: users[i].pid != users[j].pid
  }

  lemma UsersStayDistinct(users: seq<User>, req: Request)
    requires DistinctPids(users) && |users| <= MAX_CLIENTS
    ensures DistinctPids(UsersAfter(users, req)) && |UsersAfter(users, req)| <= MAX_CLIENTS
  {
  }

  lemma NextVersion(lines: nat)
    ensures (lines % VERSIONS + 1) % VERSIONS == (lines + 1) % VERSIONS
  {
  }

  /** One more command: either nothing happens, or its line goes everywhere at once. */
  lemma ReplayStep(before: seq<Request>, last: Request)
    ensures var room, line := Replay(before), LineFor(Replay(before).users, last);
            && Replay(before + [last]) == Process(room, last)
            && Log(before + [last]) == if line.None? then Log(before) else Log(before) + [line.value]
  {
  }

  /** What a processed command does to window, version and users, on values. */
  lemma OneMoreLine(room: Room, log: seq<string>, req: Request)
    requires room.messages == LastLines(log) && room.version == |log| % VERSIONS
    ensures var line := LineFor(room.users, req);
            && (line.None? ==> Process(room, req) == room)
            && (line.Some? ==>
                  && Process(room, req).messages == LastLines(log + [line.value])
                  && Process(room, req).version == |log + [line.value]| % VERSIONS)
  {
    var line := LineFor(room.users, req);
    if line.Some? {
      NextVersion(|log|);
      PushKeepsLast(log, line.value);
    }
  }

  /** The room is the last 64 lines ever logged, at most 16 users with distinct pids,
      and the number of lines modulo 2^32. */
  lemma {:induction false} ReplayMeaning(reqs: seq<Request>)
    ensures Replay(reqs).messages == LastLines(Log(reqs))
    ensures Replay(reqs).version == |Log(reqs)| % VERSIONS
    ensures DistinctPids(Replay(reqs).users) && |Replay(reqs).users| <= MAX_CLIENTS
    decreases |reqs|
  {
    if reqs != [] {
      var before, last := reqs[..|reqs| - 1], reqs[|reqs| - 1];
      ReplayMeaning(before);
      assert before + [last] == reqs;
      ReplayStep(before, last);
      OneMoreLine(Replay(before), Log(before), last);
      UsersStayDistinct(Replay(before).users, last);
    }
  }

  function NameOf(users: seq<User>, pid: int): Option<Name> {
    var i := IndexOfPid(users, pid);
    if i == -1 then None else Some(users[i].name)
  }

  /** The name under which one process is in the room, told from its own commands: from a
      JOIN that finds it absent and a seat free to its next LEAVE. */
  function Member(reqs: seq<Request>, pid: int): Option<Name> {
    if reqs == [] then None
    else
      var before, last := reqs[..|reqs| - 1], reqs[|reqs| - 1];
      if last.pid != pid then Member(before, pid)
      else if last.command == LEAVE then None
      else if last.command == JOIN && Member(before, pid).None? && |Replay(before).users| < MAX_CLIENTS then
        Some(last.name)
      else Member(before, pid)
  }

  lemma DropForgetsOne(users: seq<User>, i: nat, pid: int)
    requires DistinctPids(users) && i < |users|
    ensures NameOf(DropAt(users, i), pid) == if pid == users[i].pid then None else NameOf(users, pid)
  {
    var d, k, m := DropAt(users, i), IndexOfPid(DropAt(users, i), pid), IndexOfPid(users, pid);
    assert k != -1 ==> d[k] == users[if k < i then k else k + 1];
    assert m != -1 && m != i ==> d[if m < i then m else m - 1] == users[m];
  }

  lemma AppendAddsOne(users: seq<User>, user: User, pid: int)
    requires IndexOfPid(users, user.pid) == -1
    ensures NameOf(users + [user], pid) == if pid == user.pid then Some(user.name) else NameOf(users, pid)
  {
    var more, k, m := users + [user], IndexOfPid(users + [user], pid), IndexOfPid(users, pid);
    assert more[|users|] == user && (m != -1 ==> more[m] == users[m]);
    assert k != -1 && k < |users| ==> more[k] == users[k];
  }

  /** Over every history the users table holds each member under the name it joined with,
      whatever other processes did in between. */
  lemma {:induction false} MembersMean(reqs: seq<Request>, pid: int)
    ensures NameOf(Replay(reqs).users, pid) == Member(reqs, pid)
    decreases |reqs|
  {
    if reqs != [] {
      var before, last := reqs[..|reqs| - 1], reqs[|reqs| - 1];
      var users := Replay(before).users;
      MembersMean(before, pid);
      ReplayMeaning(before);
      var i := IndexOfPid(users, last.pid);
      assert Replay(reqs).users == UsersAfter(users, last);
      if last.command == LEAVE && i != -1 {
        DropForgetsOne(users, i, pid);
      } else if last.command == JOIN && i == -1 {
        AppendAddsOne(users, User(last.pid, last.name), pid);
      }
    }
  }

  /** Each user was put there by the JOIN at that place of the history. */
  ghost predicate JoinedBy(users: seq<User>, reqs: seq<Request>, at: seq<nat>) {
    && |at| == |users|
    && forall i | 0 <= i < |at| ::
         at[i] < |reqs| && reqs[at[i]].command == JOIN && users[i] == User(reqs[at[i]].pid, reqs[at[i]].name)
  }

  lemma JoinedByMore(users: seq<User>, before: seq<Request>, at: seq<nat>, last: Request)
    requires JoinedBy(users, before, at)
    ensures JoinedBy(users, before + [last], at)
    ensures last.command == JOIN ==>
              JoinedBy(users + [User(last.pid, last.name)], before + [last], at + [|before|])
    ensures forall i | 0 <= i < |at| :: JoinedBy(DropAt(users, i), before + [last], DropAt(at, i))
  {
  }

  /** The users are listed in the order in which they joined: `at` says by which command. */
  lemma {:induction false} UsersInJoinOrder(reqs: seq<Request>) returns (at: seq<nat>)
    ensures JoinedBy(Replay(reqs).users, reqs, at) && Increasing(at)
    decreases |reqs|
  {
    at := [];
    if reqs != [] {
      var before, last := reqs[..|reqs| - 1], reqs[|reqs| - 1];
      at := UsersInJoinOrder(before);
      var users := Replay(before).users;
      var i := IndexOfPid(users, last.pid);
      assert reqs == before + [last] && Replay(reqs).users == UsersAfter(users, last);
      JoinedByMore(users, before, at, last);
      if last.command == JOIN && i == -1 && |users| < MAX_CLIENTS {
        AppendKeepsOrder(at, |before|);
        at := at + [|before|];
      } else if last.command == LEAVE && i != -1 {
        DropKeepsOrder(at, i);
        at := DropAt(at, i);
      }
    }
  }

  /** No line is cut, whatever the name and the text: the longest has 320 bytes. */
  lemma LinesAreWhole(users: seq<User>, req: Request)
    ensures LineFor(users, req).Some? ==> |LineFor(users, req).value| <= 320 < LINE_LENGTH - 1
    ensures req.command == JOIN ==> LineFor(users, req) == Some(req.name + " joined the chat")
    ensures req.command == TEXT && req.text != "" ==> LineFor(users, req) == Some(req.name + ": " + req.text)
    ensures req.command == LEAVE && IndexOfPid(users, req.pid) != -1 ==>
              LineFor(users, req) == Some(users[IndexOfPid(users, req.pid)].name + " left the chat")
    ensures LineFor(users, req).None? <==>
            || (req.command == TEXT && req.text == "")
            || (req.command == LEAVE && IndexOfPid(users, req.pid) == -1)
            || req.command == OTHER
  {
  }

  /** The version moves exactly when a command changes the room at all. */
  lemma VersionTracksChange(room: Room, req: Request)
    requires room.version < VERSIONS
    ensures Process(room, req).version == room.version <==> Process(room, req) == room
    ensures Process(room, req).version != room.version <==> LineFor(room.users, req).Some?
  {
  }

  lemma {:induction false} LogGrows(reqs: seq<Request>, k: nat)
    requires k <= |reqs|
    ensures |Log(reqs[..k])| <= |Log(reqs)|
    decreases |reqs|
  {
    if k == |reqs| {
      assert reqs[..k] == reqs;
    } else {
      assert reqs[..|reqs| - 1][..k] == reqs[..k];
      LogGrows(reqs[..|reqs| - 1], k);
    }
  }

  /** Commands that log nothing leave the room as it was. */
  lemma {:induction false} QuietKeepsRoom(reqs: seq<Request>, k: nat)
    requires k <= |reqs| && |Log(reqs[..k])| == |Log(reqs)|
    ensures Replay(reqs) == Replay(reqs[..k])
    decreases |reqs|
  {
    if k == |reqs| {
      assert reqs[..k] == reqs;
    } else {
      assert reqs[..|reqs| - 1][..k] == reqs[..k];
      LogGrows(reqs[..|reqs| - 1], k);
      QuietKeepsRoom(reqs[..|reqs| - 1], k);
    }
  }

  // ---- the system

  /** A client's cache, how many commands had been processed when it was copied, and how
      many notices of its own the client has pushed since. */
  datatype Copy = Copy(cache: Cache, seen: nat, notices: nat)

  datatype State = State(
    room: Room,
    queue: seq<Request>,
    accepted: seq<Request>,
    processed: seq<Request>,
    clients: map<nat, Copy>)

  datatype Action =
    | Connect(client: nat)
    | Send(req: Request)
    | Turn
    | Refresh(client: nat)
    | Notice(client: nat)

  ghost predicate Next(s: State, a: Action, s': State) {
    match a
    case Connect(c) =>
      c !in s.clients && s' == s.(clients := s.clients[c := Copy(Cache([], [], 0), 0, 0)])
    case Send(req) =>
      if |s.queue| < MAX_COMMANDS then
        s' == s.(queue := s.queue + [req], accepted := s.accepted + [req])
      else
        s' == s
    case Turn =>
      && s.queue != []
      && s' == s.(room := Process(s.room, s.queue[0]), queue := s.queue[1..],
                  processed := s.processed + [s.queue[0]])
    case Refresh(c) =>
      && c in s.clients
      && var copy := s.clients[c];
      && s' == s.(clients := s.clients[c :=
           if copy.cache.version == s.room.version then copy
           else Copy(Refreshed(copy.cache, s.room), |s.processed|, 0)])
    case Notice(c) =>
      && c in s.clients
      && var copy := s.clients[c];
      && s' == s.(clients := s.clients[c := Copy(
           copy.cache.(messages := PushLine(copy.cache.messages, NOTICE)), copy.seen, copy.notices + 1)])
  }

  ghost predicate Init(s: State) {
    s == State(EMPTY_ROOM, [], [], [], map[])
  }

  function Notices(n: nat): seq<string> {
    seq(n, _ => NOTICE)
  }

  /** A cache is an old room with the client's own notices pushed on top. */
  ghost predicate CopyOk(s: State, copy: Copy) {
    && copy.seen <= |s.processed|
    && var old_ := Replay(s.processed[..copy.seen]);
    && copy.cache.version == old_.version
    && copy.cache.names == NamesOf(old_.users)
    && copy.cache.messages == PushLines(old_.messages, Notices(copy.notices))
  }

  ghost predicate Inv(s: State) {
    && s.accepted == s.processed + s.queue && |s.queue| <= MAX_COMMANDS
    && s.room == Replay(s.processed)
    && forall c | c in s.clients :: CopyOk(s, s.clients[c])
  }

  lemma {:induction false} PushLinesAppend(window: seq<string>, lines: seq<string>, line: string)
    ensures PushLines(window, lines + [line]) == PushLine(PushLines(window, lines), line)
    decreases |lines|
  {
    if lines == [] {
      assert [line][1..] == [] && lines + [line] == [line];
    } else {
      assert (lines + [line])[0] == lines[0] && (lines + [line])[1..] == lines[1..] + [line];
      PushLinesAppend(PushLine(window, lines[0]), lines[1..], line);
    }
  }

  lemma CopyStaysOk(s: State, copy: Copy, s': State)
    requires CopyOk(s, copy) && s.processed <= s'.processed
    ensures CopyOk(s', copy)
  {
    assert s'.processed[..copy.seen] == s.processed[..copy.seen];
  }

  lemma TurnKeepsInv(s: State, s': State)
    requires Inv(s) && Next(s, Turn, s')
    ensures Inv(s')
  {
    ReplayStep(s.processed, s.queue[0]);
    forall c | c in s'.clients ensures CopyOk(s', s'.clients[c]) {
      CopyStaysOk(s, s.clients[c], s');
    }
  }

  lemma NoticeKeepsInv(s: State, c: nat, s': State)
    requires Inv(s) && Next(s, Notice(c), s')
    ensures Inv(s')
  {
    var copy := s.clients[c];
    PushLinesAppend(Replay(s.processed[..copy.seen]).messages, Notices(copy.notices), NOTICE);
    assert Notices(copy.notices + 1) == Notices(copy.notices) + [NOTICE];
  }

  lemma InvKept(s: State, a: Action, s': State)
    requires Inv(s) && Next(s, a, s')
    ensures Inv(s')
  {
    match a
    case Turn => TurnKeepsInv(s, s');
    case Notice(c) => NoticeKeepsInv(s, c, s');
    case Connect(c) => assert s.processed[..0] == [];
    case Refresh(c) => assert s.processed[..|s.processed|] == s.processed;
    case Send(req) =>
  }

  ghost predicate Run(states: seq<State>, actions: seq<Action>) {
    && |states| == |actions| + 1 && Init(states[0])
    && forall i | 0 <= i < |actions| :: Next(states[i], actions[i], states[i + 1])
  }

  /** Linearization: accepted commands are the processed ones followed by the queued ones,
      and the room is the replay of the processed ones. */
  lemma {:induction false} RunKeepsInv(states: seq<State>, actions: seq<Action>, k: nat)
    requires Run(states, actions) && k < |states|
    ensures Inv(states[k])
  {
    if k > 0 {
      RunKeepsInv(states, actions, k - 1);
      InvKept(states[k - 1], actions[k - 1], states[k]);
    }
  }

  // ---- cache coherence

  /** Lines logged since the client last copied the room. */
  function Missed(s: State, copy: Copy): int
    requires copy.seen <= |s.processed|
  {
    |Log(s.processed)| - |Log(s.processed[..copy.seen])|
  }

  lemma LineIsNotNotice(users: seq<User>, req: Request)
    ensures LineFor(users, req) != Some(NOTICE)
  {
    LinesAreWhole(users, req);
    if LineFor(users, req).Some? {
      var line := LineFor(users, req).value;
      if req.command == TEXT {
        assert line[|req.name|] == ':';
        assert forall i | 0 <= i < |NOTICE| :: NOTICE[i] != ':';
      } else {
        assert line[|line| - 1] == 't';
        assert NOTICE[|NOTICE| - 1] == 'e';
      }
    }
  }

  lemma {:induction false} LogHasNoNotice(reqs: seq<Request>)
    ensures NOTICE !in Log(reqs)
    decreases |reqs|
  {
    if reqs != [] {
      LogHasNoNotice(reqs[..|reqs| - 1]);
      LineIsNotNotice(Replay(reqs[..|reqs| - 1]).users, reqs[|reqs| - 1]);
    }
  }

  /** A client's own notices always show: no window of the room can hide them. */
  lemma NoticesShow(reqs: seq<Request>, n: nat)
    ensures PushLines(Replay(reqs).messages, Notices(n)) == Replay(reqs).messages <==> n == 0
  {
    var m := Replay(reqs).messages;
    if n > 0 {
      ReplayMeaning(reqs);
      LogHasNoNotice(reqs);
      assert Notices(n) == Notices(n - 1) + [NOTICE];
      PushLinesAppend(m, Notices(n - 1), NOTICE);
      var shown := PushLines(m, Notices(n));
      assert shown[|shown| - 1] == NOTICE;
      assert forall i | 0 <= i < |m| :: m[i] in Log(reqs);
    }
  }

  lemma SameVersion(lines: nat, earlier: nat)
    requires earlier <= lines
    ensures lines % VERSIONS == earlier % VERSIONS <==> (lines - earlier) % VERSIONS == 0
  {
  }

  lemma SameVersionAsBefore(reqs: seq<Request>, k: nat)
    requires k <= |reqs|
    ensures |Log(reqs)| >= |Log(reqs[..k])|
    ensures Replay(reqs[..k]).version == Replay(reqs).version <==>
            (|Log(reqs)| - |Log(reqs[..k])|) % VERSIONS == 0
  {
    ReplayMeaning(reqs);
    ReplayMeaning(reqs[..k]);
    LogGrows(reqs, k);
    SameVersion(|Log(reqs)|, |Log(reqs[..k])|);
  }

  lemma CopyVersion(s: State, copy: Copy)
    requires CopyOk(s, copy)
    ensures copy.cache.version == Replay(s.processed[..copy.seen]).version
  {
  }

  lemma VersionTestOn(s: State, copy: Copy)
    requires s.room == Replay(s.processed) && copy.seen <= |s.processed|
    requires copy.cache.version == Replay(s.processed[..copy.seen]).version
    ensures Missed(s, copy) >= 0
    ensures copy.cache.version == s.room.version <==> Missed(s, copy) % VERSIONS == 0
  {
    SameVersionAsBefore(s.processed, copy.seen);
  }

  /** The version test, exactly: it passes when the lines missed are a multiple of 2^32. */
  lemma VersionTestExact(s: State, c: nat)
    requires Inv(s) && c in s.clients
    ensures Missed(s, s.clients[c]) >= 0
    ensures s.clients[c].cache.version == s.room.version <==> Missed(s, s.clients[c]) % VERSIONS == 0
  {
    var copy := s.clients[c];
    CopyVersion(s, copy);
    VersionTestOn(s, copy);
  }

  /** A client whose version matches and that missed fewer than 2^32 lines shows the room's
      users, and the room's messages exactly when it pushed no notice since. */
  lemma CacheCoherent(s: State, c: nat)
    requires Inv(s) && c in s.clients
    requires s.clients[c].cache.version == s.room.version && Missed(s, s.clients[c]) < VERSIONS
    ensures s.clients[c].cache.names == NamesOf(s.room.users)
    ensures s.clients[c].cache.messages == s.room.messages <==> s.clients[c].notices == 0
  {
    var copy := s.clients[c];
    VersionTestExact(s, c);
    assert Missed(s, copy) == 0;
    QuietKeepsRoom(s.processed, copy.seen);
    NoticesShow(s.processed[..copy.seen], copy.notices);
    assert CopyOk(s, copy);
  }

  /** A refresh that sees another version restores equality, whatever was pushed locally. */
  lemma RefreshRestores(s: State, c: nat, s': State)
    requires Inv(s) && Next(s, Refresh(c), s')
    requires s.clients[c].cache.version != s.room.version
    ensures s'.clients[c].cache == Cache(s'.room.messages, NamesOf(s'.room.users), s'.room.version)
    ensures Missed(s', s'.clients[c]) == 0
  {
    assert s'.processed[..|s.processed|] == s'.processed;
  }

  /** What a client shows right after a refresh, if it missed fewer than 2^32 lines: the
      room, unless it pushed notices and nothing was logged since. */
  lemma RefreshExact(s: State, c: nat, s': State)
    requires Inv(s) && Next(s, Refresh(c), s') && Missed(s, s.clients[c]) < VERSIONS
    ensures s'.clients[c].cache.names == NamesOf(s'.room.users)
    ensures s'.clients[c].cache.messages == s'.room.messages <==>
            s.clients[c].notices == 0 || Missed(s, s.clients[c]) > 0
  {
    VersionTestExact(s, c);
    SameVersion(Missed(s, s.clients[c]), 0);
    if Missed(s, s.clients[c]) == 0 {
      CacheCoherent(s, c);
    } else {
      RefreshRestores(s, c, s');
    }
  }

  // ---- what 2^32 missed lines do

  function Texts(n: nat): seq<Request> {
    seq(n, _ => Request(TEXT, 1, "a", "b"))
  }

  lemma {:induction false} TextsAllLog(n: nat)
    ensures |Log(Texts(n))| == n
  {
    if n > 0 {
      TextsAllLog(n - 1);
      OneText(n - 1);
    }
  }

  lemma OneText(n: nat)
    ensures Texts(n + 1) == Texts(n) + [Request(TEXT, 1, "a", "b")]
    ensures Replay(Texts(n + 1)) == Process(Replay(Texts(n)), Request(TEXT, 1, "a", "b"))
    ensures |Log(Texts(n + 1))| == |Log(Texts(n))| + 1
  {
    assert Texts(n + 1) == Texts(n) + [Request(TEXT, 1, "a", "b")];
    ReplayStep(Texts(n), Request(TEXT, 1, "a", "b"));
  }

  /** A client connects and does not look again while n texts are sent and processed. */
  function Asleep(n: nat): State {
    State(Replay(Texts(n)), [], Texts(n), Texts(n), map[0 := Copy(Cache([], [], 0), 0, 0)])
  }

  lemma {:induction false} SleepingClient(n: nat) returns (states: seq<State>, actions: seq<Action>)
    ensures Run(states, actions) && states[|actions|] == Asleep(n)
  {
    if n == 0 {
      states := [State(EMPTY_ROOM, [], [], [], map[]), Asleep(0)];
      actions := [Connect(0)];
    } else {
      states, actions := SleepingClient(n - 1);
      OneText(n - 1);
      var req := Request(TEXT, 1, "a", "b");
      var queued := Asleep(n - 1).(queue := [req], accepted := Texts(n));
      Extended(states, actions, Send(req), queued);
      states, actions := states + [queued], actions + [Send(req)];
      Extended(states, actions, Turn, Asleep(n));
      states, actions := states + [Asleep(n)], actions + [Turn];
    }
  }

  lemma Extended(states: seq<State>, actions: seq<Action>, a: Action, s': State)
    requires Run(states, actions) && Next(states[|actions|], a, s')
    ensures Run(states + [s'], actions + [a])
  {
  }

  /** After exactly 2^32 missed lines the version test passes and the client shows an empty
      window although the room holds 64 lines; refreshing changes nothing. */
  lemma StaleAfterWrap() returns (states: seq<State>, actions: seq<Action>)
    ensures Run(states, actions)
    ensures var s := states[|actions|];
            && 0 in s.clients && s.clients[0].seen == 0 && Missed(s, s.clients[0]) == VERSIONS
            && s.clients[0].cache.version == s.room.version
            && s.clients[0].cache.messages == [] && |s.room.messages| == MAX_MESSAGES
            && Next(s, Refresh(0), s)
  {
    states, actions := SleepingClient(VERSIONS);
    TextsAllLog(VERSIONS);
    ReplayMeaning(Texts(VERSIONS));
    assert Texts(VERSIONS)[..0] == [];
    assert Asleep(VERSIONS).clients[0 := Asleep(VERSIONS).clients[0]] == Asleep(VERSIONS).clients;
  }
}
