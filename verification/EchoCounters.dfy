/** The raw echo server: a table of at most 32 endpoints, each with the number of
    messages answered since it registered. */
module EchoCounters {
  import opened Memory

  const MAX_CLIENTS := 32
  const MAX_TEXT := 256

  datatype Endpoint = Endpoint(ip: nat, port: nat)

  datatype ClientInfo = ClientInfo(endpoint: Endpoint, count: nat)

  /** A UDP packet for the server's port: its sender and payload. */
  datatype Packet = Packet(sender: Endpoint, payload: seq<char>)

  /** What happens to a packet: `Answered(e, text, n)` sends "text n" back to e. */
  datatype Event =
    | Answered(sender: Endpoint, text: string, number: nat)
    | Closed(sender: Endpoint)
    | Dropped(sender: Endpoint)

  /** The C string in the text buffer: the payload cut to 255 bytes, up to its first NUL. */
  function TextOf(payload: seq<char>): string {
    UpToNul(if |payload| >= MAX_TEXT then payload[..MAX_TEXT - 1] else payload)
  }

  function UpToNul(s: seq<char>): (r: string)
    ensures r <= s && '\0' !in r
  {
    if s == [] || s[0] == '\0' then [] else [s[0]] + UpToNul(s[1..])
  }

  // ---- the table

  function Find(table: seq<ClientInfo>, e: Endpoint): (r: int)
    ensures -1 <= r < |table|
    ensures r == -1 ==> forall i | 0 <= i < |table| :: table[i].endpoint != e
    ensures r >= 0 ==> table[r].endpoint == e && forall i | 0 <= i < r :: table[i].endpoint != e
  {
    FirstWhere(table, (c: ClientInfo) => c.endpoint == e)
  }

  predicate Distinct(table: seq<ClientInfo>) {
    forall i, j | 0 <= i < j < |table| :: table[i].endpoint != table[j].endpoint
  }

  /** The table read as a map from endpoints to counters, 0 for those not in it. */
  function CountOf(table: seq<ClientInfo>, e: Endpoint): nat {
    var i := Find(table, e);
    if i == -1 then 0 else table[i].count
  }

  /** Finding the sender's entry, registering it if it is new and there is room. */
  function Registered(table: seq<ClientInfo>, e: Endpoint): seq<ClientInfo> {
    if Find(table, e) == -1 && |table| < MAX_CLIENTS then table + [ClientInfo(e, 0)] else table
  }

  function CountUp(table: seq<ClientInfo>, i: nat): seq<ClientInfo>
    requires i < |table|
  {
    table[i := table[i].(count := table[i].count + 1)]
  }

  /** One turn of the receive loop on a packet for the server's port. */
  function Serve(table: seq<ClientInfo>, packet: Packet): (seq<ClientInfo>, Event) {
    var e, text := packet.sender, TextOf(packet.payload);
    if text == "close" then
      (if Find(table, e) != -1 then SwapOut(table, Find(table, e)) else table, Closed(e))
    else
      var t := Registered(table, e);
      var i := Find(t, e);
      if i == -1 then (t, Dropped(e))
      else (CountUp(t, i), Answered(e, text, t[i].count + 1))
  }

  /** The table and the log after a whole sequence of packets. */
  function History(packets: seq<Packet>): (seq<ClientInfo>, seq<Event>) {
    if packets == [] then ([], [])
    else
      var before := History(packets[..|packets| - 1]);
      var now := Serve(before.0, packets[|packets| - 1]);
      (now.0, before.1 + [now.1])
  }

  // ---- each operation, seen through the map

  lemma FindUnique(table: seq<ClientInfo>, k: nat)
    requires Distinct(table) && k < |table|
    ensures Find(table, table[k].endpoint) == k
  {
  }

  /** Swap-removal forgets one endpoint and no other. */
  lemma RemovalForgetsOne(table: seq<ClientInfo>, i: nat, e: Endpoint)
    requires Distinct(table) && i < |table|
    ensures Distinct(SwapOut(table, i))
    ensures Find(SwapOut(table, i), e) == -1 <==> Find(table, e) == -1 || e == table[i].endpoint
    ensures CountOf(SwapOut(table, i), e) == if e == table[i].endpoint then 0 else CountOf(table, e)
  {
  }

  lemma RegistrationKeepsCounts(table: seq<ClientInfo>, e: Endpoint, other: Endpoint)
    requires Distinct(table) && |table| <= MAX_CLIENTS
    ensures Distinct(Registered(table, e)) && |Registered(table, e)| <= MAX_CLIENTS
    ensures CountOf(Registered(table, e), other) == CountOf(table, other)
    ensures Find(Registered(table, e), other) == -1 <==>
            Find(table, other) == -1 && !(other == e && |table| < MAX_CLIENTS)
  {
    var t := Registered(table, e);
    if Find(table, other) != -1 {
      assert t[Find(table, other)] == table[Find(table, other)];
      FindUnique(t, Find(table, other));
    } else if |t| > |table| {
      assert t[|table|] == ClientInfo(e, 0);
      FindUnique(t, |table|);
    }
  }

  lemma CountingChangesOne(table: seq<ClientInfo>, i: nat, e: Endpoint)
    requires Distinct(table) && i < |table|
    ensures Distinct(CountUp(table, i)) && Find(CountUp(table, i), e) == Find(table, e)
    ensures CountOf(CountUp(table, i), e) ==
            CountOf(table, e) + if e == table[i].endpoint then 1 else 0
  {
    var t, k := CountUp(table, i), Find(table, e);
    assert forall j | 0 <= j < |table| :: t[j].endpoint == table[j].endpoint;
    FindUnique(table, i);
    if k != -1 {
      FindUnique(t, k);
    }
  }

  // ---- what the counters mean

  /** How many messages of e were answered since its last close. */
  function AnsweredSinceClose(log: seq<Event>, e: Endpoint): nat {
    if log == [] then 0 else Tally(AnsweredSinceClose(log[..|log| - 1], e), log[|log| - 1], e)
  }

  function Tally(before: nat, event: Event, e: Endpoint): nat {
    match event
    case Answered(sender, _, _) => if sender == e then before + 1 else before
    case Closed(sender) => if sender == e then 0 else before
    case Dropped(_) => before
  }

  /** Holds between packets: distinct endpoints, at most 32, each answered at least once. */
  ghost predicate TableOk(table: seq<ClientInfo>) {
    && Distinct(table) && |table| <= MAX_CLIENTS
    && forall i | 0 <= i < |table| :: table[i].count > 0
  }

  lemma CountedEntryIsOk(table: seq<ClientInfo>, e: Endpoint)
    requires TableOk(table) && Find(Registered(table, e), e) != -1
    ensures TableOk(CountUp(Registered(table, e), Find(Registered(table, e), e)))
  {
  }

  /** One packet moves every endpoint's counter as its own events do, and no other. */
  lemma ServeTallies(table: seq<ClientInfo>, packet: Packet, e: Endpoint)
    requires TableOk(table)
    ensures TableOk(Serve(table, packet).0)
    ensures CountOf(Serve(table, packet).0, e) == Tally(CountOf(table, e), Serve(table, packet).1, e)
    ensures Serve(table, packet).1.Answered? ==>
              Serve(table, packet).1.number == CountOf(table, packet.sender) + 1
  {
    var sender := packet.sender;
    if TextOf(packet.payload) == "close" {
      if Find(table, sender) != -1 {
        RemovalForgetsOne(table, Find(table, sender), e);
      }
    } else {
      var t := Registered(table, sender);
      RegistrationKeepsCounts(table, sender, e);
      RegistrationKeepsCounts(table, sender, sender);
      if Find(t, sender) != -1 {
        CountedEntryIsOk(table, sender);
        CountingChangesOne(t, Find(t, sender), e);
      }
    }
  }

  /** Over every history: an endpoint's counter is the number of its messages answered since
      its last close, and it is in the table exactly when that number is not 0. */
  lemma {:induction false} CountersMean(packets: seq<Packet>, e: Endpoint)
    ensures TableOk(History(packets).0)
    ensures CountOf(History(packets).0, e) == AnsweredSinceClose(History(packets).1, e)
    ensures Find(History(packets).0, e) == -1 <==> AnsweredSinceClose(History(packets).1, e) == 0
    decreases |packets|
  {
    if packets != [] {
      var front := packets[..|packets| - 1];
      CountersMean(front, e);
      ServeTallies(History(front).0, packets[|packets| - 1], e);
      var log := History(packets).1;
      assert log[..|log| - 1] == History(front).1;
    }
  }

  /** The number in every answer is the count of the sender's answered messages since its
      last close, this one included, whatever other endpoints did in between. */
  lemma {:induction false} NumbersMean(packets: seq<Packet>, k: nat)
    requires k < |History(packets).1| && History(packets).1[k].Answered?
    ensures var log := History(packets).1;
            log[k].number == AnsweredSinceClose(log[..k], log[k].sender) + 1
    decreases |packets|
  {
    var front, last := packets[..|packets| - 1], packets[|packets| - 1];
    var log, before := History(packets).1, History(front).1;
    assert log[..|before|] == before;
    if k < |before| {
      NumbersMean(front, k);
      assert log[..k] == before[..k];
    } else {
      CountersMean(front, last.sender);
      ServeTallies(History(front).0, last, last.sender);
    }
  }

  /** A message is left unanswered exactly when its sender is new and the table is full, and
      then it changes nothing. */
  lemma DroppedExactly(table: seq<ClientInfo>, packet: Packet)
    requires TableOk(table)
    ensures Serve(table, packet).1.Dropped? <==>
            && TextOf(packet.payload) != "close"
            && Find(table, packet.sender) == -1 && |table| == MAX_CLIENTS
    ensures Serve(table, packet).1.Dropped? ==> Serve(table, packet).0 == table
  {
    RegistrationKeepsCounts(table, packet.sender, packet.sender);
  }

  // ---- what is echoed

  lemma {:induction false} StopsAtNul(s: seq<char>)
    ensures UpToNul(s) == s || s[|UpToNul(s)|] == '\0'
  {
    if s != [] && s[0] != '\0' {
      StopsAtNul(s[1..]);
    }
  }

  /** The echoed part of a payload: from its first byte, without NUL, and as long as 255 bytes
      and the first NUL allow. */
  ghost predicate Echoes(text: string, payload: seq<char>) {
    && text <= payload && |text| <= 255 && '\0' !in text
    && (|text| == 255 || |text| == |payload| || payload[|text|] == '\0')
  }

  lemma TextEchoes(payload: seq<char>)
    ensures Echoes(TextOf(payload), payload)
  {
    StopsAtNul(if |payload| >= MAX_TEXT then payload[..MAX_TEXT - 1] else payload);
  }

  lemma EchoNoLonger(a: string, b: string, payload: seq<char>)
    requires Echoes(a, payload) && Echoes(b, payload)
    ensures |b| <= |a|
  {
    assert forall i | 0 <= i < |b| :: payload[i] == b[i] && b[i] in b;
  }

  lemma EchoIsUnique(a: string, b: string, payload: seq<char>)
    requires Echoes(a, payload) && Echoes(b, payload)
    ensures a == b
  {
    EchoNoLonger(a, b, payload);
    EchoNoLonger(b, a, payload);
  }

  /** Over every history: the k-th event belongs to the k-th packet. It is a close exactly when
      the text says so, and an answer carries back the text of the packet. */
  lemma {:induction false} EventsAnswerPackets(packets: seq<Packet>, k: nat)
    requires k < |packets|
    ensures var log := History(packets).1;
            && |log| == |packets| && log[k].sender == packets[k].sender
            && (log[k].Closed? <==> Echoes("close", packets[k].payload))
            && (log[k].Answered? ==> Echoes(log[k].text, packets[k].payload))
    decreases |packets|
  {
    var front, last := packets[..|packets| - 1], packets[|packets| - 1];
    if front != [] {
      EventsAnswerPackets(front, if k < |front| then k else 0);
    }
    if k == |front| {
      TextEchoes(last.payload);
      if Echoes("close", last.payload) {
        EchoIsUnique("close", TextOf(last.payload), last.payload);
      }
    }
  }

  // ---- the program

  class Server {
    const clients: array<ClientInfo>
    var clientCount: nat

    ghost predicate Valid()
      reads this
    {
      clients.Length == MAX_CLIENTS && clientCount <= MAX_CLIENTS
    }

    ghost function Table(): seq<ClientInfo>
      requires Valid()
      reads this, clients
    {
      clients[..clientCount]
    }

    constructor ()
      ensures Valid() && fresh(clients) && Table() == []
    {
      clients := new ClientInfo[MAX_CLIENTS](_ => ClientInfo(Endpoint(0, 0), 0));
      clientCount := 0;
    }

    method FindClient(e: Endpoint) returns (index: int)
      requires Valid()
      ensures index == Find(Table(), e)
    {
      var i := 0;
      while i < clientCount
        invariant i <= clientCount
        invariant forall k | 0 <= k < i :: clients[k].endpoint != e
      {
        if clients[i].endpoint == e {
          return i;
        }
        i := i + 1;
      }
      return -1;
    }

    /** The index of an endpoint, registered now if need be; -1 when there is no room. */
    method GetClient(e: Endpoint) returns (index: int)
      requires Valid()
      modifies this`clientCount, clients
      ensures Valid() && Table() == Registered(old(Table()), e)
      ensures index == Find(Table(), e)
    {
      index := FindClient(e);
      if index != -1 {
        return;
      }
      if clientCount == MAX_CLIENTS {
        return -1;
      }
      index := clientCount;
      clients[index] := ClientInfo(e, 0);
      clientCount := clientCount + 1;
      assert Table() == old(Table()) + [ClientInfo(e, 0)];
      assert forall k | 0 <= k < index :: Table()[k] == old(Table())[k];
    }

    method RemoveClient(index: nat)
      requires Valid() && index < clientCount
      modifies this`clientCount, clients
      ensures Valid() && Table() == SwapOut(old(Table()), index)
    {
      clients[index] := clients[clientCount - 1];
      clientCount := clientCount - 1;
    }

    /** One turn of the receive loop. */
    method Receive(packet: Packet) returns (event: Event)
      requires Valid()
      modifies this, clients
      ensures Valid() && (Table(), event) == Serve(old(Table()), packet)
    {
      var text := TextOf(packet.payload);
      var index := FindClient(packet.sender);
      if text == "close" {
        if index != -1 {
          RemoveClient(index);
        }
        return Closed(packet.sender);
      }
      index := GetClient(packet.sender);
      if index == -1 {
        return Dropped(packet.sender);
      }
      ghost var t := Table();
      clients[index] := clients[index].(count := clients[index].count + 1);
      assert Table() == CountUp(t, index);
      return Answered(packet.sender, text, clients[index].count);
    }
  }
}
