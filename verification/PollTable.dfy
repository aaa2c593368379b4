/** The poll server of lab 16, part 2, server 4: one table of descriptors, compacted
    by swap-removal while the scan over it is running. */
module PollTable {
  import opened Memory

  const MAX_CLIENTS := 32
  const SLOTS := MAX_CLIENTS + 2
  const FIRST_CLIENT := 2  // slots 0 and 1 hold the TCP listener and the UDP socket

  const POLLIN: bv16 := 0x01
  const POLLERR: bv16 := 0x08
  const POLLHUP: bv16 := 0x10

  datatype PollFd = PollFd(fd: int, revents: bv16)

  predicate Ready(p: PollFd) {
    p.revents & (POLLIN | POLLHUP | POLLERR) != 0
  }

  function Fds(clients: seq<PollFd>): (r: seq<int>)
    ensures |r| == |clients| && forall i | 0 <= i < |r| :: r[i] == clients[i].fd
  {
    seq(|clients|, i requires 0 <= i < |clients| => clients[i].fd)
  }

  lemma FdsAppend(clients: seq<PollFd>, p: PollFd)
    ensures Fds(clients + [p]) == Fds(clients) + [p.fd]
  {
  }

  // ---- the scan

  /** What the scan leaves and what it handles, in order: after a removal the same index
      is looked at again. */
  function Scan(clients: seq<PollFd>, i: nat): (seq<PollFd>, seq<PollFd>)
    decreases |clients| - i
  {
    if i >= |clients| then (clients, [])
    else if Ready(clients[i]) then
      var rest := Scan(SwapOut(clients, i), i);
      (rest.0, [clients[i]] + rest.1)
    else Scan(clients, i + 1)
  }

  lemma FdsAfterSwap(clients: seq<PollFd>, i: nat)
    requires i < |clients|
    ensures Fds(SwapOut(clients, i)) == SwapOut(Fds(clients), i)
  {
  }

  lemma CountAfterSwap(clients: seq<PollFd>, i: nat, p: PollFd)
    requires i < |clients|
    ensures multiset(clients)[p] ==
            multiset(SwapOut(clients, i))[p] + if p == clients[i] then 1 else 0
  {
    SwapOutRemovesOne(clients, i);
    assert clients[i] in multiset(clients);
  }

  lemma AllUnready(clients: seq<PollFd>, p: PollFd)
    requires forall k | 0 <= k < |clients| :: !Ready(clients[k])
    ensures Ready(p) ==> multiset(clients)[p] == 0
  {
  }

  /** Compaction loses nothing and skips nobody: every entry that was ready is handled as
      often as it occurs, every other entry stays, whatever the swaps did to the order. */
  lemma {:induction false} ScanSplits(clients: seq<PollFd>, i: nat, p: PollFd)
    requires forall k | 0 <= k < i && k < |clients| :: !Ready(clients[k])
    ensures multiset(Scan(clients, i).0)[p] == if Ready(p) then 0 else multiset(clients)[p]
    ensures multiset(Scan(clients, i).1)[p] == if Ready(p) then multiset(clients)[p] else 0
    decreases |clients| - i
  {
    if i >= |clients| {
      AllUnready(clients, p);
    } else if Ready(clients[i]) {
      var rest := SwapOut(clients, i);
      assert forall k | 0 <= k < i && k < |rest| :: rest[k] == clients[k];
      ScanSplits(rest, i, p);
      CountAfterSwap(clients, i, p);
      assert multiset([clients[i]] + Scan(rest, i).1) == multiset{clients[i]} + multiset(Scan(rest, i).1);
    } else {
      ScanSplits(clients, i + 1, p);
    }
  }

  /** Closing the removed descriptor keeps table and open connections equal. */
  lemma SwapOutCloses(clients: seq<PollFd>, open: set<int>, i: nat)
    requires i < |clients| && multiset(Fds(clients)) == multiset(open)
    ensures multiset(Fds(SwapOut(clients, i))) == multiset(open - {clients[i].fd})
  {
    FdsAfterSwap(clients, i);
    SwapOutRemovesOne(Fds(clients), i);
    var fd := clients[i].fd;
    assert Fds(clients)[i] == fd;
    assert fd in multiset(Fds(clients));
    assert multiset(open - {fd}) == multiset(open) - multiset{fd};
  }

  /** A scan in progress: `c` is the table from index j on, `done` what was handled. */
  ghost predicate Scanning(start: seq<PollFd>, c: seq<PollFd>, j: nat, done: seq<PollFd>) {
    Scan(start, 0).0 == Scan(c, j).0 && Scan(start, 0).1 == done + Scan(c, j).1
  }

  lemma ScanStarts(start: seq<PollFd>)
    ensures Scanning(start, start, 0, [])
  {
  }

  lemma ScanAdvances(start: seq<PollFd>, c: seq<PollFd>, j: nat, done: seq<PollFd>)
    requires Scanning(start, c, j, done) && j < |c|
    ensures if Ready(c[j]) then Scanning(start, SwapOut(c, j), j, done + [c[j]])
            else Scanning(start, c, j + 1, done)
  {
  }

  // ---- accepting

  /** What one accept call and the call that makes the descriptor non-blocking return. */
  datatype Accepted = Client(fd: int) | CannotUnblock(fd: int)

  /** Takes connections until there are none or the table is full. */
  function AcceptAll(clients: seq<PollFd>, incoming: seq<Accepted>): seq<PollFd>
    decreases incoming
  {
    if |clients| >= MAX_CLIENTS || incoming == [] then clients
    else
      match incoming[0]
      case Client(fd) => AcceptAll(clients + [PollFd(fd, 0)], incoming[1..])
      case CannotUnblock(fd) => AcceptAll(clients, incoming[1..])
  }

  // ---- the table

  class Table {
    const fds: array<PollFd>
    var count: nat
    ghost var open: set<int>     // client connections accepted and not yet closed
    ghost var handled: seq<int>  // client connections answered and closed, in order

    ghost predicate Shaped()
      reads this
    {
      fds.Length == SLOTS && FIRST_CLIENT <= count <= SLOTS
    }

    ghost function Clients(): seq<PollFd>
      requires Shaped()
      reads this, fds
    {
      fds[FIRST_CLIENT..count]
    }

    /** The client slots hold exactly the open connections, each once. */
    ghost predicate Valid()
      reads this, fds
    {
      Shaped() && multiset(Fds(Clients())) == multiset(open)
    }

    constructor (tcpFd: int, udpFd: int)
      ensures Valid() && fresh(fds) && Clients() == [] && open == {} && handled == []
      ensures fds[0].fd == tcpFd && fds[1].fd == udpFd
    {
      fds := new PollFd[SLOTS](_ => PollFd(-1, 0));
      count, open, handled := 2, {}, [];
      new;
      fds[0], fds[1] := PollFd(tcpFd, 0), PollFd(udpFd, 0);
    }

    method RemoveFd(index: nat)
      requires Valid() && FIRST_CLIENT <= index < count
      modifies this, fds
      ensures Valid() && Clients() == SwapOut(old(Clients()), index - FIRST_CLIENT)
      ensures open == old(open) - {old(fds[index].fd)}
      ensures handled == old(handled) + [old(fds[index].fd)] && count == old(count) - 1
      ensures fds[0] == old(fds[0]) && fds[1] == old(fds[1])
    {
      ghost var before, fd := Clients(), fds[index].fd;
      SwapOutCloses(before, open, index - FIRST_CLIENT);
      open, handled := open - {fd}, handled + [fd];
      fds[index] := fds[count - 1];
      count := count - 1;
      assert Clients() == SwapOut(before, index - FIRST_CLIENT);
    }

    /** accept gives descriptors that are not open at that moment: the number of a connection
        that could not be unblocked, and was closed, may come back. */
    method HandleTcpListener(incoming: seq<Accepted>)
      requires Valid()
      requires forall i | 0 <= i < |incoming| :: incoming[i].fd !in open
      requires forall i, j | 0 <= i < j < |incoming| && incoming[i].Client? :: incoming[i].fd != incoming[j].fd
      modifies this`count, this`open, fds
      ensures Valid() && Clients() == AcceptAll(old(Clients()), incoming)
      ensures old(open) <= open
      ensures fds[0] == old(fds[0]) && fds[1] == old(fds[1])
    {
      var next := 0;
      while count < SLOTS
        invariant Valid() && next <= |incoming| && old(open) <= open
        invariant AcceptAll(Clients(), incoming[next..]) == AcceptAll(old(Clients()), incoming)
        invariant forall i | next <= i < |incoming| :: incoming[i].fd !in open
        invariant fds[0] == old(fds[0]) && fds[1] == old(fds[1])
        decreases |incoming| - next
      {
        if next == |incoming| {
          return;
        }
        ghost var before := Clients();
        match incoming[next] {
          case Client(fd) =>
            open := open + {fd};
            fds[count] := PollFd(fd, 0);
            count := count + 1;
            assert Clients() == before + [PollFd(fd, 0)];
            FdsAppend(before, PollFd(fd, 0));
          case CannotUnblock(_) =>
        }
        next := next + 1;
      }
    }

    /** poll writes the events of every entry in the table. */
    method Poll(events: seq<bv16>)
      requires Valid() && |events| == count
      modifies fds
      ensures Valid() && Fds(Clients()) == old(Fds(Clients()))
      ensures forall i | 0 <= i < count :: fds[i] == PollFd(old(fds[i].fd), events[i])
    {
      forall i | 0 <= i < count {
        fds[i] := PollFd(fds[i].fd, events[i]);
      }
      assert Fds(Clients()) == old(Fds(Clients()));
    }

    /** Answers a client and removes it: one step of the scan. */
    method HandleTcpClient(index: nat, ghost start: seq<PollFd>, ghost done: seq<PollFd>)
      requires Valid() && FIRST_CLIENT <= index < count && Ready(fds[index])
      requires Scanning(start, Clients(), index - FIRST_CLIENT, done)
      modifies this, fds
      ensures Valid() && count == old(count) - 1
      ensures Scanning(start, Clients(), index - FIRST_CLIENT, done + [old(fds[index])])
      ensures handled == old(handled) + [old(fds[index].fd)]
      ensures fds[0] == old(fds[0]) && fds[1] == old(fds[1])
    {
      assert Clients()[index - FIRST_CLIENT] == fds[index];
      ScanAdvances(start, Clients(), index - FIRST_CLIENT, done);
      RemoveFd(index);
    }

    /** The scan loop. */
    method ScanClients()
      requires Valid()
      modifies this, fds
      ensures Valid() && Clients() == Scan(old(Clients()), 0).0
      ensures handled == old(handled) + Fds(Scan(old(Clients()), 0).1)
      ensures fds[0] == old(fds[0]) && fds[1] == old(fds[1])
    {
      ghost var start := Clients();
      ghost var done: seq<PollFd> := [];
      ScanStarts(start);
      var i := FIRST_CLIENT;
      while i < count
        invariant Valid() && FIRST_CLIENT <= i <= count
        invariant Scanning(start, Clients(), i - FIRST_CLIENT, done)
        invariant handled == old(handled) + Fds(done)
        invariant fds[0] == old(fds[0]) && fds[1] == old(fds[1])
        decreases count - i
      {
        ghost var p := fds[i];
        assert Clients()[i - FIRST_CLIENT] == p;
        if Ready(fds[i]) {
          HandleTcpClient(i, start, done);
          FdsAppend(done, p);
          done := done + [p];
          i := i - 1;
        } else {
          ScanAdvances(start, Clients(), i - FIRST_CLIENT, done);
        }
        i := i + 1;
      }
      assert done + [] == done;
    }

    /** One turn of the server: poll, accept, scan. The table is again the open connections. */
    method Round(events: seq<bv16>, incoming: seq<Accepted>)
      requires Valid() && |events| == count
      requires forall i | 0 <= i < |incoming| :: incoming[i].fd !in open
      requires forall i, j | 0 <= i < j < |incoming| && incoming[i].Client? :: incoming[i].fd != incoming[j].fd
      modifies this, fds
      ensures Valid()
      ensures Clients() == Scan(Entry(old(Clients()), events, incoming), 0).0
      ensures handled == old(handled) + Fds(Scan(Entry(old(Clients()), events, incoming), 0).1)
      ensures fds[0].fd == old(fds[0].fd) && fds[1].fd == old(fds[1].fd)
    {
      ghost var before := Clients();
      Poll(events);
      assert Clients() == Polled(before, events);
      if fds[0].revents & POLLIN != 0 {
        HandleTcpListener(incoming);
      }
      ScanClients();
    }
  }

  /** The client entries once poll has written their events. */
  function Polled(clients: seq<PollFd>, events: seq<bv16>): seq<PollFd>
    requires |events| == |clients| + FIRST_CLIENT
  {
    seq(|clients|, i requires 0 <= i < |clients| => PollFd(clients[i].fd, events[i + FIRST_CLIENT]))
  }

  /** The client entries when the scan of a turn begins. */
  function Entry(clients: seq<PollFd>, events: seq<bv16>, incoming: seq<Accepted>): seq<PollFd>
    requires |events| == |clients| + FIRST_CLIENT
  {
    if events[0] & POLLIN != 0 then AcceptAll(Polled(clients, events), incoming)
    else Polled(clients, events)
  }

  /** A whole turn: the connections poll found ready are all handled, once each, and nobody
      else; the others stay, together with every connection just accepted; the table never
      outgrows its 32 client slots. */
  lemma TurnHandlesExactlyTheReady(clients: seq<PollFd>, events: seq<bv16>, incoming: seq<Accepted>)
    requires |events| == |clients| + FIRST_CLIENT && |clients| <= MAX_CLIENTS
    ensures var entry := Entry(clients, events, incoming);
            && Polled(clients, events) <= entry && |entry| <= MAX_CLIENTS
            && (forall p: PollFd :: multiset(Scan(entry, 0).1)[p] ==
                  if Ready(p) then multiset(Polled(clients, events))[p] else 0)
            && (forall p: PollFd :: multiset(Scan(entry, 0).0)[p] ==
                  if Ready(p) then 0 else multiset(entry)[p])
  {
    var polled, entry := Polled(clients, events), Entry(clients, events, incoming);
    AcceptKeeps(polled, incoming);
    assert entry == polled + entry[|polled|..];
    forall p: PollFd
      ensures multiset(Scan(entry, 0).1)[p] == if Ready(p) then multiset(polled)[p] else 0
      ensures multiset(Scan(entry, 0).0)[p] == if Ready(p) then 0 else multiset(entry)[p]
    {
      ScanSplits(entry, 0, p);
      if Ready(p) {
        assert p !in entry[|polled|..];
        assert multiset(entry)[p] == multiset(polled)[p] + multiset(entry[|polled|..])[p];
      }
    }
  }

  /** The events that make poll report a client: data, hang-up or error. */
  lemma ReadyBits(p: PollFd)
    ensures Ready(p) <==> p.revents & 0x01 != 0 || p.revents & 0x10 != 0 || p.revents & 0x08 != 0
  {
  }

  lemma {:induction false} InMultiset<T>(s: seq<T>, x: T)
    ensures multiset(s)[x] > 0 <==> x in s
  {
  }

  /** The same on the events themselves: connection i is handled exactly when poll reported
      data, a hang-up or an error for it, and otherwise it is still in the table. */
  lemma TurnByEvents(clients: seq<PollFd>, events: seq<bv16>, incoming: seq<Accepted>, i: nat)
    requires |events| == |clients| + FIRST_CLIENT && |clients| <= MAX_CLIENTS && i < |clients|
    requires forall j, k | 0 <= j < k < |clients| :: clients[j].fd != clients[k].fd
    ensures var entry, event := Entry(clients, events, incoming), events[i + 2];
            var reported := event & 0x01 != 0 || event & 0x10 != 0 || event & 0x08 != 0;
            && (clients[i].fd in Fds(Scan(entry, 0).1) <==> reported)
            && (PollFd(clients[i].fd, event) in Scan(entry, 0).0 <==> !reported)
  {
    var polled, entry := Polled(clients, events), Entry(clients, events, incoming);
    var p, handled := polled[i], Scan(entry, 0).1;
    TurnHandlesExactlyTheReady(clients, events, incoming);
    ReadyBits(p);
    InMultiset(handled, p);
    InMultiset(Scan(entry, 0).0, p);
    assert p in multiset(polled) && p in multiset(entry);
    if clients[i].fd in Fds(handled) {
      var h :| 0 <= h < |handled| && handled[h].fd == clients[i].fd;
      HandledWasPolled(clients, events, incoming, handled[h]);
      var j :| 0 <= j < |polled| && polled[j] == handled[h];
      assert j == i;
    }
    if Ready(p) {
      var h :| 0 <= h < |handled| && handled[h] == p;
      assert Fds(handled)[h] == clients[i].fd;
    }
  }

  lemma HandledWasPolled(clients: seq<PollFd>, events: seq<bv16>, incoming: seq<Accepted>, p: PollFd)
    requires |events| == |clients| + FIRST_CLIENT && |clients| <= MAX_CLIENTS
    requires p in Scan(Entry(clients, events, incoming), 0).1
    ensures Ready(p) && p in Polled(clients, events)
  {
    TurnHandlesExactlyTheReady(clients, events, incoming);
    InMultiset(Scan(Entry(clients, events, incoming), 0).1, p);
    InMultiset(Polled(clients, events), p);
  }

  /** The connections that can be used, in the order they came. */
  function Usable(incoming: seq<Accepted>): seq<int> {
    if incoming == [] then []
    else (if incoming[0].Client? then [incoming[0].fd] else []) + Usable(incoming[1..])
  }

  function AtMost(fds: seq<int>, room: int): seq<int> {
    if room <= 0 then [] else if |fds| <= room then fds else fds[..room]
  }

  lemma {:induction false} AcceptKeeps(clients: seq<PollFd>, incoming: seq<Accepted>)
    ensures clients <= AcceptAll(clients, incoming)
    ensures |AcceptAll(clients, incoming)| <= if |clients| > MAX_CLIENTS then |clients| else MAX_CLIENTS
    ensures forall i | |clients| <= i < |AcceptAll(clients, incoming)| ::
              AcceptAll(clients, incoming)[i].revents == 0
    decreases |incoming|
  {
    if |clients| < MAX_CLIENTS && incoming != [] {
      match incoming[0]
      case Client(fd) => AcceptKeeps(clients + [PollFd(fd, 0)], incoming[1..]);
      case CannotUnblock(fd) => AcceptKeeps(clients, incoming[1..]);
    }
  }

  /** Accepting appends exactly the usable connections, in order, as many as there is room for. */
  lemma {:induction false} AcceptsInOrder(clients: seq<PollFd>, incoming: seq<Accepted>)
    ensures Fds(AcceptAll(clients, incoming)) ==
            Fds(clients) + AtMost(Usable(incoming), MAX_CLIENTS - |clients|)
    decreases |incoming|
  {
    var room := MAX_CLIENTS - |clients|;
    if room > 0 && incoming != [] {
      var rest := Usable(incoming[1..]);
      match incoming[0]
      case CannotUnblock(fd) => AcceptsInOrder(clients, incoming[1..]);
      case Client(fd) =>
        AcceptsInOrder(clients + [PollFd(fd, 0)], incoming[1..]);
        FdsAppend(clients, PollFd(fd, 0));
        FirstUsable(fd, rest, room);
        OneByOne(Fds(clients), fd, AtMost(rest, room - 1));
    }
  }

  lemma OneByOne(a: seq<int>, x: int, b: seq<int>)
    ensures (a + [x]) + b == a + ([x] + b)
  {
  }

  /** What a turn takes in: new connections only when poll reported data on the listener, and
      behind those already in the table. */
  lemma TurnAccepts(clients: seq<PollFd>, events: seq<bv16>, incoming: seq<Accepted>)
    requires |events| == |clients| + FIRST_CLIENT
    ensures Fds(Entry(clients, events, incoming)) ==
            Fds(clients) + if events[0] & 0x01 != 0 then AtMost(Usable(incoming), 32 - |clients|) else []
  {
    AcceptsInOrder(Polled(clients, events), incoming);
    assert Fds(Polled(clients, events)) == Fds(clients);
  }

  lemma FirstUsable(fd: int, rest: seq<int>, room: int)
    requires room > 0
    ensures AtMost([fd] + rest, room) == [fd] + AtMost(rest, room - 1)
  {
  }
}
