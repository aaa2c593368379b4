/** The shared-memory chat room (lab 14): what the server does with one command,
    on values and in place. */
module SharedRoom {
  import opened ChatTypes
  import opened CText
  import opened Options
  import opened Memory
  import opened LineWindow
  import opened Ring

  const MAX_COMMANDS := 32
  const LINE_LENGTH := MAX_NAME + MAX_TEXT + 8
  const VERSIONS := 0x1_0000_0000

  // What a line buffer can hold.
  type Line = s: string | |s| < LINE_LENGTH

  /** What clients copy: the message window, the users and the version counter. */
  datatype Room = Room(messages: seq<string>, users: seq<User>, version: nat)

  const EMPTY_ROOM := Room([], [], 0)

  function UsersAfter(users: seq<User>, req: Request): seq<User> {
    var i := IndexOfPid(users, req.pid);
    if req.command == JOIN && i == -1 && |users| < MAX_CLIENTS then users + [User(req.pid, req.name)]
    else if req.command == LEAVE && i != -1 then DropAt(users, i)
    else users
  }

  /** The line a command adds to the room, if any. */
  function LineFor(users: seq<User>, req: Request): Option<Line> {
    match req.command
    case JOIN => Some(Cut(req.name + " joined the chat", LINE_LENGTH))
    case TEXT => if req.text == "" then None else Some(Cut(req.name + ": " + req.text, LINE_LENGTH))
    case LEAVE =>
      var i := IndexOfPid(users, req.pid);
      if i == -1 then None else Some(Cut(users[i].name + " left the chat", LINE_LENGTH))
    case OTHER => None
  }

  function Process(room: Room, req: Request): Room {
    match LineFor(room.users, req)
    case None => room
    case Some(line) =>
      Room(PushLine(room.messages, line), UsersAfter(room.users, req), (room.version + 1) % VERSIONS)
  }

  lemma LeaveFound(room: Room, req: Request, i: nat)
    requires req.command == LEAVE && IndexOfPid(room.users, req.pid) == i
    ensures Process(room, req) ==
            Room(PushLine(room.messages, Cut(room.users[i].name + " left the chat", LINE_LENGTH)),
                 DropAt(room.users, i), (room.version + 1) % VERSIONS)
  {
  }

  /** The mapped segment, apart from its semaphore. */
  class ChatRoom {
    var version: nat
    const messages: array<Line>
    var messageCount: nat
    const users: array<User>
    var userCount: nat
    const commands: array<Request>
    var commandHead: nat
    var commandTail: nat
    var commandCount: nat

    ghost predicate Valid()
      reads this
    {
      && version < VERSIONS
      && messages.Length == MAX_MESSAGES && messageCount <= MAX_MESSAGES
      && users.Length == MAX_CLIENTS && userCount <= MAX_CLIENTS
      && commands.Length == MAX_COMMANDS
      && commandHead < MAX_COMMANDS && commandCount <= MAX_COMMANDS
      && commandTail == (commandHead + commandCount) % MAX_COMMANDS
    }

    ghost function State(): Room
      requires Valid()
      reads this, messages, users
    {
      Room(messages[..messageCount], users[..userCount], version)
    }

    ghost function Queue(): seq<Request>
      requires Valid()
      reads this, commands
    {
      Contents(commands[..], commandHead, commandCount)
    }

    constructor ()
      ensures Valid() && fresh(messages) && fresh(users) && fresh(commands)
      ensures State() == EMPTY_ROOM && Queue() == []
    {
      version := 0;
      messages := new Line[MAX_MESSAGES](_ => "");
      users := new User[MAX_CLIENTS](_ => User(0, ""));
      commands := new Request[MAX_COMMANDS](_ => Request(OTHER, 0, "", ""));
      messageCount, userCount, commandHead, commandTail, commandCount := 0, 0, 0, 0, 0;
    }

    method FindUser(pid: int) returns (index: int)
      requires Valid()
      ensures index == IndexOfPid(users[..userCount], pid)
    {
      var i := 0;
      while i < userCount
        invariant i <= userCount
        invariant forall k | 0 <= k < i :: users[k].pid != pid
      {
        if users[i].pid == pid {
          return i;
        }
        i := i + 1;
      }
      return -1;
    }

    method AddMessageLocked(text: string)
      requires Valid()
      modifies this`messageCount, messages
      ensures Valid() && messages[..messageCount] == PushLine(old(messages[..messageCount]), Cut(text, LINE_LENGTH))
    {
      messageCount := PushInPlace(messages, messageCount, Cut(text, LINE_LENGTH));
    }

    method AddUserLocked(pid: int, name: Name)
      requires Valid()
      modifies this`userCount, users
      ensures Valid()
      ensures users[..userCount] == if old(userCount) < MAX_CLIENTS
                                    then old(users[..userCount]) + [User(pid, name)]
                                    else old(users[..userCount])
    {
      if userCount >= MAX_CLIENTS {
        return;
      }
      users[userCount] := User(pid, name);
      userCount := userCount + 1;
    }

    method RemoveUserLocked(index: int)
      requires Valid()
      modifies this`userCount, users
      ensures Valid()
      ensures 0 <= index < old(userCount) ==>
                State() == old(State()).(users := DropAt(old(State()).users, index))
      ensures !(0 <= index < old(userCount)) ==> State() == old(State())
    {
      if index < 0 || index >= userCount {
        return;
      }
      CloseGap(users, index, userCount);
      userCount := userCount - 1;
      users[userCount] := User(0, "");
    }

    /** Takes the oldest command, or reports that there is none. */
    method PopCommandLocked() returns (request: Option<Request>)
      requires Valid()
      modifies this`commandHead, this`commandCount
      ensures Valid()
      ensures request.None? <==> old(Queue()) == []
      ensures request.None? ==> Queue() == old(Queue())
      ensures request.Some? ==> old(Queue()) == [request.value] + Queue()
    {
      if commandCount == 0 {
        return None;
      }
      PopRemovesFirst(commands[..], commandHead, commandCount);
      SlotIsModulo(MAX_COMMANDS, commandHead, 1);
      request := Some(commands[commandHead]);
      commandHead := (commandHead + 1) % MAX_COMMANDS;
      commandCount := commandCount - 1;
    }

    /** The client's side of the queue, with the room's lock held. */
    method SendCommand(request: Request) returns (result: int)
      requires Valid()
      modifies this`commandTail, this`commandCount, commands
      ensures Valid()
      ensures result == if |old(Queue())| < MAX_COMMANDS then 0 else -1
      ensures Queue() == if result == 0 then old(Queue()) + [request] else old(Queue())
    {
      result := -1;
      if commandCount < MAX_COMMANDS {
        SlotIsModulo(MAX_COMMANDS, commandHead, commandCount);
        PushAppends(commands[..], commandHead, commandCount, request);
        commands[commandTail] := request;
        commandTail := (commandTail + 1) % MAX_COMMANDS;
        commandCount := commandCount + 1;
        result := 0;
      }
    }

    /** The common end of the three commands: log the line, count the update. */
    method LogAndCount(line: Line)
      requires Valid()
      modifies this`version, this`messageCount, messages
      ensures Valid()
      ensures State() == Room(PushLine(old(State()).messages, line), old(State()).users,
                              (old(version) + 1) % VERSIONS)
    {
      assert Cut(line, LINE_LENGTH) == line;
      AddMessageLocked(line);
      version := (version + 1) % VERSIONS;
    }

    method ProcessJoinLocked(request: Request)
      requires Valid() && request.command == JOIN
      modifies this`version, this`messageCount, this`userCount, messages, users
      ensures Valid() && State() == Process(old(State()), request)
    {
      var index := FindUser(request.pid);
      if index == -1 {
        AddUserLocked(request.pid, request.name);
      }
      LogAndCount(Cut(request.name + " joined the chat", LINE_LENGTH));
    }

    method ProcessTextLocked(request: Request)
      requires Valid() && request.command == TEXT
      modifies this`version, this`messageCount, messages
      ensures Valid() && State() == Process(old(State()), request)
    {
      if request.text == "" {
        return;
      }
      LogAndCount(Cut(request.name + ": " + request.text, LINE_LENGTH));
    }

    method ProcessLeaveLocked(request: Request)
      requires Valid() && request.command == LEAVE
      modifies this`version, this`messageCount, this`userCount, messages, users
      ensures Valid() && State() == Process(old(State()), request)
    {
      var index := FindUser(request.pid);
      if index == -1 {
        return;
      }
      ghost var before := State();
      LeaveFound(before, request, index);
      var line := Cut(users[index].name + " left the chat", LINE_LENGTH);
      RemoveUserLocked(index);
      assert State() == before.(users := DropAt(before.users, index));
      LogAndCount(line);
    }

    /** One turn of the server's loop with the lock held. */
    method ServerTurn() returns (processed: bool)
      requires Valid()
      modifies this, messages, users
      ensures Valid()
      ensures processed == (old(Queue()) != [])
      ensures processed ==> Queue() == old(Queue())[1..] && State() == Process(old(State()), old(Queue())[0])
      ensures !processed ==> Queue() == old(Queue()) && State() == old(State())
    {
      var request := PopCommandLocked();
      if request.None? {
        return false;
      }
      match request.value.command {
        case JOIN => ProcessJoinLocked(request.value);
        case TEXT => ProcessTextLocked(request.value);
        case LEAVE => ProcessLeaveLocked(request.value);
        case OTHER =>
      }
      return true;
    }
  }
}
