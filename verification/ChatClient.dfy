/** A client of the message-queue chat (lab 13): its copy of the user list and
    its message window, both updated in place for each received line. */
module ChatClient {
  import opened ChatTypes
  import opened CText
  import opened Options
  import opened ChatWire
  import opened LineWindow
  import opened Memory

  const UI_LINE_LENGTH := MAX_NAME + MAX_TEXT + 8

  /** The name before `suffix` when it is non-empty and fits a buffer of `size`. */
  method ExtractNameWithSuffix(text: string, suffix: string, size: nat) returns (name: Option<string>)
    requires size == MAX_NAME
    ensures name == NameBefore(text, suffix)
  {
    if |text| <= |suffix| {
      return None;
    }
    if text[|text| - |suffix|..] != suffix {
      return None;
    }
    if |text| - |suffix| >= size {
      return None;
    }
    return Some(text[..|text| - |suffix|]);
  }

  method ExtractSenderName(text: string, size: nat) returns (name: Option<string>)
    requires size == MAX_NAME
    ensures name == SenderName(text)
  {
    var separator := FindSubstr(text, SEPARATOR);
    if separator.None? {
      return None;
    }
    if separator.value == 0 || separator.value >= size {
      return None;
    }
    return Some(text[..separator.value]);
  }

  class ClientState {
    const users: array<string>
    var userCount: nat
    const messages: array<string>
    var messageCount: nat

    ghost predicate Valid()
      reads this
    {
      && users != messages
      && users.Length == MAX_CLIENTS && userCount <= MAX_CLIENTS
      && messages.Length == MAX_MESSAGES && messageCount <= MAX_MESSAGES
    }

    ghost function Users(): seq<string>
      requires Valid()
      reads this, users
    {
      users[..userCount]
    }

    ghost function Messages(): seq<string>
      requires Valid()
      reads this, messages
    {
      messages[..messageCount]
    }

    constructor ()
      ensures Valid() && fresh(users) && fresh(messages)
      ensures Users() == [] && Messages() == []
    {
      users := new string[MAX_CLIENTS](_ => "");
      messages := new string[MAX_MESSAGES](_ => "");
      userCount, messageCount := 0, 0;
    }

    method FindUser(name: string) returns (index: int)
      requires Valid()
      ensures index == IndexOf(Users(), name)
    {
      var i := 0;
      while i < userCount
        invariant i <= userCount
        invariant forall k | 0 <= k < i :: users[k] != name
      {
        if users[i] == name {
          return i;
        }
        i := i + 1;
      }
      return -1;
    }

    method AddUserLocked(name: string)
      requires Valid()
      modifies this`userCount, users
      ensures Valid() && Users() == AddUser(old(Users()), name)
    {
      if name == "" {
        return;
      }
      var index := FindUser(name);
      if index != -1 {
        return;
      }
      if userCount < MAX_CLIENTS {
        users[userCount] := Cut(name, MAX_NAME);
        userCount := userCount + 1;
      }
    }

    method RemoveUserLocked(name: string)
      requires Valid()
      modifies this`userCount, users
      ensures Valid() && Users() == RemoveUser(old(Users()), name)
    {
      var index := FindUser(name);
      if index == -1 {
        return;
      }
      CloseGap(users, index, userCount);
      userCount := userCount - 1;
      users[userCount] := "";
    }

    /** Snapshot lines change the user list and never reach the message window. */
    method HandleControlMessage(text: Text) returns (handled: bool)
      requires Valid()
      modifies this`userCount, users
      ensures Valid()
      ensures handled <==> Parse(text).Reset? || Parse(text).Listed?
      ensures Users() == if handled then ApplyLine(old(Users()), text) else old(Users())
    {
      if text != USERS_RESET && !(USER_PREFIX <= text) {
        return false;
      }
      if text == USERS_RESET {
        userCount := 0;
      } else {
        AddUserLocked(text[|USER_PREFIX|..]);
      }
      return true;
    }

    /** What a line that is not a snapshot line does to the user list. */
    method FollowLine(text: Text)
      requires Valid() && !Parse(text).Reset? && !Parse(text).Listed?
      modifies this`userCount, users
      ensures Valid() && Users() == ApplyLine(old(Users()), text)
    {
      var joined := ExtractNameWithSuffix(text, JOIN_SUFFIX, MAX_NAME);
      if joined.Some? {
        AddUserLocked(joined.value);
      } else {
        var left := ExtractNameWithSuffix(text, LEAVE_SUFFIX, MAX_NAME);
        if left.Some? {
          RemoveUserLocked(left.value);
        } else {
          var sender := ExtractSenderName(text, MAX_NAME);
          if sender.Some? {
            AddUserLocked(sender.value);
          }
        }
      }
    }

    method ProcessReceivedText(text: Text)
      requires Valid()
      modifies this, users, messages
      ensures Valid() && Users() == ApplyLine(old(Users()), text)
      ensures Messages() == if Parse(text).Reset? || Parse(text).Listed? then old(Messages())
                            else PushLine(old(Messages()), text)
    {
      var handled := HandleControlMessage(text);
      if handled {
        return;
      }
      FollowLine(text);
      messageCount := PushInPlace(messages, messageCount, Cut(text, UI_LINE_LENGTH));
    }
  }
}
