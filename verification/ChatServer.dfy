/** The server of the message-queue chat (lab 13): an ordered client table and
    the lines it sends for one request. */
module ChatServer {
  import opened ChatTypes
  import opened ChatWire
  import opened Memory

  /** One `mq_send` of a line to the queue of the client with this pid. */
  datatype Send = Send(pid: int, line: Text)

  function Broadcast(table: seq<User>, line: Text): (r: seq<Send>) {
    seq(|table|, i requires 0 <= i < |table| => Send(table[i].pid, line))
  }

  function UserLines(pid: int, table: seq<User>): seq<Send> {
    seq(|table|, i requires 0 <= i < |table| => Send(pid, UserLine(table[i].name)))
  }

  function Snapshot(pid: int, table: seq<User>): seq<Send> {
    [Send(pid, USERS_RESET)] + UserLines(pid, table)
  }

  /** Whether a JOIN puts its sender into the table; `queueOpens` says that
      the client's queue could be opened. */
  predicate Registers(table: seq<User>, req: Request) {
    req.command == JOIN && IndexOfPid(table, req.pid) == -1 && |table| < MAX_CLIENTS
  }

  function TableAfter(table: seq<User>, req: Request, queueOpens: bool): seq<User> {
    if Registers(table, req) then
      if queueOpens then table + [User(req.pid, req.name)] else table
    else if req.command == LEAVE && IndexOfPid(table, req.pid) != -1 then
      DropAt(table, IndexOfPid(table, req.pid))
    else table
  }

  function SendsFor(table: seq<User>, req: Request, queueOpens: bool): seq<Send> {
    var after := TableAfter(table, req, queueOpens);
    match req.command
    case JOIN =>
      if Registers(table, req) && !queueOpens then []
      else if IndexOfPid(after, req.pid) != -1 then
        Snapshot(req.pid, after) + Broadcast(after, JoinLine(req.name))
      else Broadcast(after, JoinLine(req.name))
    case LEAVE =>
      var i := IndexOfPid(table, req.pid);
      if i == -1 then [] else Broadcast(after, LeaveLine(table[i].name))
    case TEXT => Broadcast(after, TextLine(req.name, req.text))
    case OTHER => []
  }

  /** The server process: its fixed table and everything it has sent so far. */
  class Server {
    const clients: array<User>
    var clientCount: nat
    var sent: seq<Send>

    ghost predicate Valid()
      reads this
    {
      clients.Length == MAX_CLIENTS && clientCount <= MAX_CLIENTS
    }

    ghost function Table(): seq<User>
      requires Valid()
      reads this, clients
    {
      clients[..clientCount]
    }

    constructor ()
      ensures Valid() && fresh(clients)
      ensures Table() == [] && sent == []
    {
      clients := new User[MAX_CLIENTS](_ => User(0, ""));
      clientCount, sent := 0, [];
    }

    method FindClient(pid: int) returns (r: int)
      requires Valid()
      ensures r == IndexOfPid(Table(), pid)
    {
      var i := 0;
      while i < clientCount
        invariant i <= clientCount
        invariant forall k | 0 <= k < i :: clients[k].pid != pid
      {
        if clients[i].pid == pid {
          return i;
        }
        i := i + 1;
      }
      return -1;
    }

    method SendToClient(pid: int, line: Text)
      modifies this`sent
      ensures sent == old(sent) + [Send(pid, line)]
    {
      sent := sent + [Send(pid, line)];
    }

    method BroadcastLine(line: Text)
      requires Valid()
      modifies this`sent
      ensures sent == old(sent) + Broadcast(Table(), line)
    {
      var i := 0;
      while i < clientCount
        invariant i <= clientCount
        invariant sent == old(sent) + Broadcast(Table(), line)[..i]
      {
        SendToClient(clients[i].pid, line);
        i := i + 1;
      }
    }

    method SendUserLines(pid: int)
      requires Valid()
      modifies this`sent
      ensures sent == old(sent) + UserLines(pid, Table())
    {
      ghost var lines := UserLines(pid, Table());
      var i := 0;
      while i < clientCount
        invariant i <= clientCount
        invariant sent == old(sent) + lines[..i]
      {
        var line := UserLine(clients[i].name);
        assert lines[i] == Send(pid, line);
        SendToClient(pid, line);
        i := i + 1;
      }
    }

    method SendUserSnapshot(pid: int)
      requires Valid()
      modifies this`sent
      ensures sent == old(sent) + Snapshot(pid, Table())
    {
      SendToClient(pid, USERS_RESET);
      SendUserLines(pid);
    }

    /** The loop of LEAVE: every later entry moves one place down. */
    method RemoveAt(index: nat)
      requires Valid() && index < clientCount
      modifies this`clientCount, clients
      ensures Valid() && Table() == DropAt(old(Table()), index)
    {
      var i := index;
      while i < clientCount - 1
        invariant clientCount == old(clientCount) && index <= i <= clientCount - 1
        invariant forall k | 0 <= k < index :: clients[k] == old(clients[k])
        invariant forall k | index <= k < i :: clients[k] == old(clients[k + 1])
        invariant forall k | i <= k < clientCount :: clients[k] == old(clients[k])
      {
        clients[i] := clients[i + 1];
        i := i + 1;
      }
      clientCount := clientCount - 1;
    }

    method Append(user: User)
      requires Valid() && clientCount < MAX_CLIENTS
      modifies this`clientCount, clients
      ensures Valid() && Table() == old(Table()) + [user]
    {
      clients[clientCount] := user;
      clientCount := clientCount + 1;
    }

    /** Registers a new client if there is room; false when its queue cannot be opened. */
    method Admit(req: Request, queueOpens: bool) returns (proceed: bool)
      requires Valid() && req.command == JOIN
      modifies this`clientCount, clients
      ensures Valid() && Table() == TableAfter(old(Table()), req, queueOpens)
      ensures proceed == !(Registers(old(Table()), req) && !queueOpens)
    {
      var index := FindClient(req.pid);
      if index == -1 && clientCount < MAX_CLIENTS {
        if !queueOpens {
          return false;
        }
        Append(User(req.pid, req.name));
      }
      return true;
    }

    /** The snapshot goes to the sender if it is registered by now. */
    method Greet(pid: int)
      requires Valid()
      modifies this`sent
      ensures sent == old(sent) + if IndexOfPid(Table(), pid) == -1 then [] else Snapshot(pid, Table())
    {
      var index := FindClient(pid);
      if index != -1 {
        SendUserSnapshot(clients[index].pid);
      }
    }

    method HandleJoin(req: Request, queueOpens: bool)
      requires Valid() && req.command == JOIN
      modifies this, clients
      ensures Valid() && Table() == TableAfter(old(Table()), req, queueOpens)
      ensures sent == old(sent) + SendsFor(old(Table()), req, queueOpens)
    {
      var proceed := Admit(req, queueOpens);
      if !proceed {
        return;
      }
      Greet(req.pid);
      BroadcastLine(JoinLine(req.name));
    }

    method HandleLeave(req: Request)
      requires Valid() && req.command == LEAVE
      modifies this, clients
      ensures Valid() && Table() == TableAfter(old(Table()), req, true)
      ensures sent == old(sent) + SendsFor(old(Table()), req, true)
    {
      var index := FindClient(req.pid);
      if index != -1 {
        var line := LeaveLine(clients[index].name);
        RemoveAt(index);
        BroadcastLine(line);
      }
    }

    /** One turn of the receive loop. */
    method Handle(req: Request, queueOpens: bool)
      requires Valid()
      modifies this, clients
      ensures Valid() && Table() == TableAfter(old(Table()), req, queueOpens)
      ensures sent == old(sent) + SendsFor(old(Table()), req, queueOpens)
    {
      if req.command == JOIN {
        HandleJoin(req, queueOpens);
      } else if req.command == LEAVE {
        HandleLeave(req);
      } else if req.command == TEXT {
        BroadcastLine(TextLine(req.name, req.text));
      }
    }
  }
}
