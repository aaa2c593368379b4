/** What the two chat programs (labs 13 and 14) have in common: sizes, requests and
    tables of users looked up by process. */
module ChatTypes {
  import opened Memory

  const MAX_NAME := 64
  const MAX_TEXT := 256
  const MAX_CLIENTS := 16

  // What a name field and a text field can hold, terminator excluded.
  type Name = s: string | |s| < MAX_NAME
  type Text = s: string | |s| < MAX_TEXT

  datatype Command = JOIN | TEXT | LEAVE | OTHER

  /** A request as the server takes it; its strings fit their fields. */
  datatype Request = Request(command: Command, pid: int, name: Name, text: Text)

  datatype User = User(pid: int, name: Name)

  function NamesOf(users: seq<User>): (r: seq<string>)
    ensures |r| == |users|
    ensures forall i | 0 <= i < |r| :: r[i] == users[i].name
  {
    seq(|users|, i requires 0 <= i < |users| => users[i].name)
  }

  function IndexOfPid(users: seq<User>, pid: int): (r: int)
    ensures -1 <= r < |users|
    ensures r == -1 ==> forall i | 0 <= i < |users| :: users[i].pid != pid
    ensures r >= 0 ==> users[r].pid == pid && forall i | 0 <= i < r :: users[i].pid != pid
  {
    FirstWhere(users, (u: User) => u.pid == pid)
  }
}
