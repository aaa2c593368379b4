/** A client of the shared-memory chat room (lab 14): its cached copy of the room,
    refreshed only when the version counter has moved. */
module SharedRoomClient {
  import opened ChatTypes
  import opened CText
  import opened LineWindow
  import opened SharedRoom

  /** What a client keeps of the room. */
  datatype Cache = Cache(messages: seq<string>, names: seq<string>, version: nat)

  function Refreshed(cache: Cache, room: Room): Cache {
    if cache.version == room.version then cache
    else Cache(room.messages, NamesOf(room.users), room.version)
  }

  class ClientState {
    const room: ChatRoom
    var version: nat
    const messages: array<Line>
    var messageCount: nat
    const users: array<string>
    var userCount: nat

    ghost predicate Valid()
      reads this, room
    {
      && room.Valid()
      && messages != room.messages
      && messages.Length == MAX_MESSAGES && messageCount <= MAX_MESSAGES
      && users.Length == MAX_CLIENTS && userCount <= MAX_CLIENTS
    }

    ghost function State(): Cache
      requires Valid()
      reads this, room, messages, users
    {
      Cache(messages[..messageCount], users[..userCount], version)
    }

    constructor (room: ChatRoom)
      requires room.Valid()
      ensures Valid() && this.room == room && fresh(messages) && fresh(users)
      ensures State() == Cache([], [], 0)
    {
      this.room := room;
      messages := new Line[MAX_MESSAGES](_ => "");
      users := new string[MAX_CLIENTS](_ => "");
      version, messageCount, userCount := 0, 0, 0;
    }

    /** A notice of the client's own, shown without asking the room. */
    method PushMessage(text: string)
      requires Valid()
      modifies this`messageCount, messages
      ensures Valid()
      ensures State() == old(State()).(messages := PushLine(old(State()).messages, Cut(text, LINE_LENGTH)))
    {
      messageCount := PushInPlace(messages, messageCount, Cut(text, LINE_LENGTH));
    }

    method CopyRoomStateLocked()
      requires Valid()
      modifies this`messageCount, this`userCount, messages, users
      ensures Valid() && version == old(version)
      ensures messages[..messageCount] == room.messages[..room.messageCount]
      ensures users[..userCount] == NamesOf(room.users[..room.userCount])
    {
      messageCount := room.messageCount;
      var i := 0;
      while i < room.messageCount
        invariant i <= room.messageCount
        invariant forall k | 0 <= k < i :: messages[k] == room.messages[k]
        modifies messages
      {
        messages[i] := Cut(room.messages[i], LINE_LENGTH);
        i := i + 1;
      }
      userCount := room.userCount;
      i := 0;
      while i < room.userCount
        invariant i <= room.userCount
        invariant forall k | 0 <= k < i :: users[k] == room.users[k].name
        modifies users
      {
        users[i] := Cut(room.users[i].name, MAX_NAME);
        i := i + 1;
      }
    }

    method RefreshFromRoom()
      requires Valid()
      modifies this, messages, users
      ensures Valid() && State() == Refreshed(old(State()), room.State())
    {
      if version != room.version {
        CopyRoomStateLocked();
        version := room.version;
      }
    }
  }
}
