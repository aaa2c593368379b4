/** The text lines of the message-queue chat (lab 13): how the server prints
    them and what a client does to its copy of the user list on reading one. */
module ChatWire {
  import opened ChatTypes
  import opened CText
  import opened Options
  import opened Memory

  const LINE_BUFFER := MAX_NAME + MAX_TEXT + 32
  const SNAPSHOT_BUFFER := MAX_NAME + 16

  const USERS_RESET := "@@users-reset"
  const USER_PREFIX := "@@user "
  const JOIN_SUFFIX := " joined the chat"
  const LEAVE_SUFFIX := " left the chat"
  const SEPARATOR := ": "

  // ---- what the server prints; each line is cut again by the message's text field

  function UserLine(n: Name): Text {
    Cut(Cut(USER_PREFIX + n, SNAPSHOT_BUFFER), MAX_TEXT)
  }

  function JoinLine(n: Name): Text {
    Cut(Cut(n + JOIN_SUFFIX, LINE_BUFFER), MAX_TEXT)
  }

  function LeaveLine(n: Name): Text {
    Cut(Cut(n + LEAVE_SUFFIX, LINE_BUFFER), MAX_TEXT)
  }

  function TextLine(n: Name, t: Text): Text {
    Cut(Cut(n + SEPARATOR + t, LINE_BUFFER), MAX_TEXT)
  }

  // ---- how a client reads a line

  datatype Meaning =
    | Reset
    | Listed(name: string)
    | Joined(name: string)
    | Left(name: string)
    | Said(name: string)
    | Nothing

  /** A non-empty name short enough for a name buffer, followed by `suffix`. */
  predicate ServiceShaped(line: string, suffix: string) {
    EndsWith(line, suffix) && |suffix| < |line| < |suffix| + MAX_NAME
  }

  function NameBefore(line: string, suffix: string): Option<string> {
    if ServiceShaped(line, suffix) then Some(line[..|line| - |suffix|]) else None
  }

  function SenderName(line: string): Option<string> {
    match FirstIndex(line, SEPARATOR)
    case None => None
    case Some(k) => if k == 0 || k >= MAX_NAME then None else Some(line[..k])
  }

  function Parse(line: string): Meaning {
    if line == USERS_RESET then Reset
    else if USER_PREFIX <= line then Listed(line[|USER_PREFIX|..])
    else if NameBefore(line, JOIN_SUFFIX).Some? then Joined(NameBefore(line, JOIN_SUFFIX).value)
    else if NameBefore(line, LEAVE_SUFFIX).Some? then Left(NameBefore(line, LEAVE_SUFFIX).value)
    else if SenderName(line).Some? then Said(SenderName(line).value)
    else Nothing
  }

  // ---- the client's user list

  function IndexOf(users: seq<string>, n: string): (i: int)
    ensures -1 <= i < |users|
    ensures i == -1 <==> n !in users
    ensures i >= 0 ==> users[i] == n && forall k | 0 <= k < i :: users[k] != n
  {
    FirstWhere(users, u => u == n)
  }

  predicate Refuses(users: seq<string>, n: string) {
    n == "" || n in users || |users| >= MAX_CLIENTS
  }

  function AddUser(users: seq<string>, n: string): seq<string> {
    if Refuses(users, n) then users else users + [Cut(n, MAX_NAME)]
  }

  function RemoveUser(users: seq<string>, n: string): seq<string> {
    var i := IndexOf(users, n);
    if i == -1 then users else DropAt(users, i)
  }

  function ApplyLine(users: seq<string>, line: string): seq<string> {
    match Parse(line)
    case Reset => []
    case Listed(n) => AddUser(users, n)
    case Joined(n) => AddUser(users, n)
    case Left(n) => RemoveUser(users, n)
    case Said(n) => AddUser(users, n)
    case Nothing => users
  }

  function ApplyLines(users: seq<string>, lines: seq<string>): seq<string>
    decreases lines
  {
    if lines == [] then users else ApplyLines(ApplyLine(users, lines[0]), lines[1..])
  }

  lemma {:induction false} ApplyLinesAppend(users: seq<string>, a: seq<string>, b: seq<string>)
    ensures ApplyLines(users, a + b) == ApplyLines(ApplyLines(users, a), b)
    decreases |a|
  {
    if a == [] {
      assert a + b == b;
    } else {
      assert (a + b)[0] == a[0] && (a + b)[1..] == a[1..] + b;
      ApplyLinesAppend(ApplyLine(users, a[0]), a[1..], b);
    }
  }

  // ---- which names and texts survive the trip

  /** A joining or leaving line of this name would be read as a snapshot line. */
  predicate Reserved(n: string) {
    USER_PREFIX <= n + " "
  }

  predicate Plain(n: string) {
    FirstIndex(n, SEPARATOR).None?
  }

  lemma PrefixOfConcat(p: string, a: string, b: string)
    requires |p| <= |a|
    ensures p <= a + b <==> p <= a
  {
  }

  /** A service line starts like a snapshot line exactly when its name is reserved. */
  lemma SuffixedStart(n: string, suffix: string)
    requires suffix == JOIN_SUFFIX || suffix == LEAVE_SUFFIX
    ensures USER_PREFIX <= n + suffix <==> Reserved(n)
    ensures n + suffix != USERS_RESET
  {
    assert n + suffix == n + " " + suffix[1..];
    if |n| + 1 >= |USER_PREFIX| {
      PrefixOfConcat(USER_PREFIX, n + " ", suffix[1..]);
    } else {
      assert (n + suffix)[|n| + 1] != USER_PREFIX[|n| + 1];
    }
    assert (n + suffix)[|n + suffix| - 1] == 't' && (n + suffix)[|n + suffix| - 6] == 'e';
  }

  lemma SuffixedName(n: Name, suffix: string)
    requires n != "" && 0 < |suffix|
    ensures NameBefore(n + suffix, suffix) == Some(n)
  {
  }

  lemma LeaveIsNotJoin(n: string)
    ensures !EndsWith(n + LEAVE_SUFFIX, JOIN_SUFFIX)
  {
    var line := n + LEAVE_SUFFIX;
    assert line[|line| - 14] == ' ';
    assert |JOIN_SUFFIX| <= |line| ==> line[|line| - |JOIN_SUFFIX|..][2] == ' ';
    assert JOIN_SUFFIX[2] == 'o';
  }

  /** Nothing is cut from a service line, whatever the name. */
  lemma ServiceLinesWhole(n: Name)
    ensures UserLine(n) == USER_PREFIX + n
    ensures JoinLine(n) == n + JOIN_SUFFIX
    ensures LeaveLine(n) == n + LEAVE_SUFFIX
  {
  }

  lemma UserLineParses(n: Name)
    ensures Parse(UserLine(n)) == Listed(n)
  {
    ServiceLinesWhole(n);
    assert UserLine(n)[6] != USERS_RESET[6];
    assert UserLine(n)[|USER_PREFIX|..] == n;
  }

  lemma JoinLineParses(n: Name)
    ensures Parse(JoinLine(n)) == Joined(n) <==> n != "" && !Reserved(n)
  {
    ServiceLinesWhole(n);
    SuffixedStart(n, JOIN_SUFFIX);
    if n != "" {
      SuffixedName(n, JOIN_SUFFIX);
    }
  }

  lemma LeaveLineParses(n: Name)
    ensures Parse(LeaveLine(n)) == Left(n) <==> n != "" && !Reserved(n)
  {
    ServiceLinesWhole(n);
    SuffixedStart(n, LEAVE_SUFFIX);
    LeaveIsNotJoin(n);
    if n != "" {
      SuffixedName(n, LEAVE_SUFFIX);
    }
  }

  // ---- joining

  function JoinMeaning(n: Name): Meaning {
    if Reserved(n) then Listed((n + JOIN_SUFFIX)[|USER_PREFIX|..])
    else if n == "" then Nothing
    else Joined(n)
  }

  lemma JoinLineMeaning(n: Name)
    ensures Parse(JoinLine(n)) == JoinMeaning(n)
  {
    ServiceLinesWhole(n);
    if Reserved(n) {
      SuffixedStart(n, JOIN_SUFFIX);
    } else if n == "" {
      assert n + JOIN_SUFFIX == JOIN_SUFFIX;
      EmptyJoin();
    } else {
      JoinLineParses(n);
    }
  }

  predicate NeutralJoin(users: seq<string>, n: Name) {
    Refuses(users, if Reserved(n) then (n + JOIN_SUFFIX)[|USER_PREFIX|..] else n)
  }

  /** What a joining line does to an agreed list, for every name. */
  lemma JoinLineEffect(users: seq<string>, n: Name)
    ensures ApplyLine(users, JoinLine(n)) == users <==> NeutralJoin(users, n)
    ensures ApplyLine(users, JoinLine(n)) == users + [n] <==>
            n != "" && n !in users && !Reserved(n) && |users| < MAX_CLIENTS
  {
    JoinLineMeaning(n);
    var after := ApplyLine(users, JoinLine(n));
    assert (users + [n])[|users|] == n;
    if Reserved(n) {
      var rest := (n + JOIN_SUFFIX)[|USER_PREFIX|..];
      assert after == AddUser(users, rest);
      CutLonger(n, rest);
      assert !Refuses(users, rest) ==> after[|users|] != n;
    } else if n == "" {
      assert after == users;
    } else {
      assert after == AddUser(users, n);
    }
  }

  /** Even cut to a name buffer, the tail of a reserved joining line is another name. */
  lemma CutLonger(n: Name, rest: string)
    requires Reserved(n) && rest == (n + JOIN_SUFFIX)[|USER_PREFIX|..]
    ensures Cut(rest, MAX_NAME) != n
  {
    var cut := Cut(rest, MAX_NAME);
    if |n| == MAX_NAME - 1 {
      assert |cut| == MAX_NAME - 1 && cut[56] == JOIN_SUFFIX[0] == ' ';
      assert n[0] == (n + " ")[0] == '@';
      assert cut[0] == n[7] && cut[7] == n[14] && cut[14] == n[21] && cut[21] == n[28];
      assert cut[28] == n[35] && cut[35] == n[42] && cut[42] == n[49] && cut[49] == n[56];
    }
  }

  lemma NoColon(line: string)
    requires ':' !in line
    ensures FirstIndex(line, SEPARATOR).None?
  {
    forall k: nat ensures !OccursAt(line, SEPARATOR, k) {
      assert k + 2 <= |line| ==> line[k..k + 2][0] == line[k];
    }
  }

  lemma EmptyJoin()
    ensures Parse(JOIN_SUFFIX) == Nothing
  {
    var line := JOIN_SUFFIX;
    assert line[0] != USERS_RESET[0] && line[0] != USER_PREFIX[0];
    assert line[|line| - |LEAVE_SUFFIX|..][0] != LEAVE_SUFFIX[0];
    NoColon(line);
  }

  // ---- chat text

  lemma TextLineStart(n: Name, t: Text)
    ensures n + SEPARATOR <= TextLine(n, t)
    ensures TextLine(n, t) != USERS_RESET
    ensures USER_PREFIX <= TextLine(n, t) <==> USER_PREFIX <= n
  {
    var line := TextLine(n, t);
    assert (n + SEPARATOR + t)[..|n| + 2] == n + SEPARATOR;
    assert line[..|n| + 2] == n + SEPARATOR;
    assert line[|n|] == ':' && forall i | 0 <= i < |USERS_RESET| :: USERS_RESET[i] != ':';
    if |n| >= |USER_PREFIX| {
      assert line == n + line[|n|..];
      PrefixOfConcat(USER_PREFIX, n, line[|n|..]);
    } else {
      assert USER_PREFIX[|n|] != ':';
    }
  }

  /** What a chat line carries: the name, the separator and the typed text from its first
      byte on, as much of it as 255 bytes hold. */
  lemma TextLineCarries(n: Name, t: Text)
    ensures n + ": " <= TextLine(n, t)
    ensures TextLine(n, t)[|n| + 2..] <= t
    ensures |TextLine(n, t)| == if |n| + 2 + |t| < 256 then |n| + 2 + |t| else 255
  {
    var whole, line := n + ": " + t, TextLine(n, t);
    CutKeepsStart(whole, LINE_BUFFER);
    CutKeepsStart(Cut(whole, LINE_BUFFER), MAX_TEXT);
    assert line <= whole && |n| + 2 <= |line|;
    assert line[..|n| + 2] == whole[..|n| + 2] == n + ": ";
    assert line[|n| + 2..] == whole[|n| + 2..][..|line| - |n| - 2] == t[..|line| - |n| - 2];
  }

  /** The separator the client finds is the first one of the printed name and colon. */
  lemma SeparatorFound(n: Name, t: Text)
    ensures FirstIndex(TextLine(n, t), SEPARATOR).Some?
    ensures FirstIndex(TextLine(n, t), SEPARATOR) == FirstIndex(n + SEPARATOR, SEPARATOR)
    ensures FirstIndex(n + SEPARATOR, SEPARATOR).value <= |n|
  {
    TextLineStart(n, t);
    assert OccursAt(n + SEPARATOR, SEPARATOR, |n|);
    FoundInPrefix(TextLine(n, t), n + SEPARATOR, SEPARATOR);
  }

  lemma PlainSeparator(n: Name)
    ensures FirstIndex(n + SEPARATOR, SEPARATOR) == Some(|n|) <==> Plain(n)
  {
    var head := n + SEPARATOR;
    assert OccursAt(head, SEPARATOR, |n|);
    forall k: nat | k < |n|
      ensures OccursAt(head, SEPARATOR, k) <==> OccursAt(n, SEPARATOR, k)
    {
      if k + 2 <= |n| {
        assert head[k..k + 2] == n[k..k + 2];
      } else {
        assert head[k..k + 2][1] == ':';
      }
    }
  }

  /** The text a user types to make the line end in `suffix`. */
  predicate TypedAs(t: string, suffix: string)
    requires |suffix| > 0
  {
    EndsWith(t, suffix) || t == suffix[1..]
  }

  lemma TypedSuffix(n: string, t: string, suffix: string)
    requires |suffix| > 0 && suffix[0] == ' ' && ':' !in suffix
    ensures EndsWith(n + SEPARATOR + t, suffix) <==> TypedAs(t, suffix)
  {
    var line := n + SEPARATOR + t;
    if |t| >= |suffix| {
      assert line[|line| - |suffix|..] == t[|t| - |suffix|..];
    } else if |t| == |suffix| - 1 {
      assert line[|line| - |suffix|..] == [' '] + t;
      assert suffix == [' '] + suffix[1..];
      assert ([' '] + t)[1..] == t;
    } else if |line| >= |suffix| {
      assert line[|line| - |suffix|..][|suffix| - |t| - 2] == ':';
    }
  }

  /** A chat line passes for a service line exactly when the typed text ends in
      the service words and the whole line is short. */
  predicate PassesFor(n: Name, t: Text, suffix: string)
    requires |suffix| > 0
  {
    |n| + 2 + |t| < |suffix| + MAX_NAME && TypedAs(t, suffix)
  }

  /** The name such a line is then taken to announce. */
  function Forged(n: Name, t: Text, suffix: string): string
    requires |suffix| > 0 && PassesFor(n, t, suffix)
  {
    (n + SEPARATOR + t)[..|n| + 2 + |t| - |suffix|]
  }

  lemma TextLineService(n: Name, t: Text, suffix: string)
    requires suffix == JOIN_SUFFIX || suffix == LEAVE_SUFFIX
    ensures NameBefore(TextLine(n, t), suffix) ==
            if PassesFor(n, t, suffix) then Some(Forged(n, t, suffix)) else None
  {
    TypedSuffix(n, t, suffix);
    if |n| + 2 + |t| < MAX_TEXT {
      assert TextLine(n, t) == n + SEPARATOR + t;
    }
  }

  /** What the client makes of a chat line, read off the name and the typed text. */
  function TextMeaning(n: Name, t: Text): Meaning {
    if USER_PREFIX <= n then Listed(TextLine(n, t)[|USER_PREFIX|..])
    else if PassesFor(n, t, JOIN_SUFFIX) then Joined(Forged(n, t, JOIN_SUFFIX))
    else if PassesFor(n, t, LEAVE_SUFFIX) then Left(Forged(n, t, LEAVE_SUFFIX))
    else
      match FirstIndex(n + SEPARATOR, SEPARATOR)
      case None => Nothing
      case Some(k) => if k == 0 || k > |n| then Nothing else Said(n[..k])
  }

  lemma TextMeaningExact(n: Name, t: Text)
    ensures Parse(TextLine(n, t)) == TextMeaning(n, t)
  {
    TextLineStart(n, t);
    TextLineService(n, t, JOIN_SUFFIX);
    TextLineService(n, t, LEAVE_SUFFIX);
    SeparatorFound(n, t);
    var k := FirstIndex(n + SEPARATOR, SEPARATOR).value;
    assert TextLine(n, t)[..|n| + 2] == n + SEPARATOR;
    assert TextLine(n, t)[..k] == TextLine(n, t)[..|n| + 2][..k] == n[..k];
  }

  /** The sender is recovered exactly when the name is ordinary and the typed text
      does not pass for a service line. */
  lemma TextLineParses(n: Name, t: Text)
    ensures Parse(TextLine(n, t)) == Said(n) <==>
            && n != "" && Plain(n) && !(USER_PREFIX <= n)
            && !PassesFor(n, t, JOIN_SUFFIX) && !PassesFor(n, t, LEAVE_SUFFIX)
  {
    TextMeaningExact(n, t);
    PlainSeparator(n);
    assert n[..|n|] == n;
  }

  /** Can be checked before the text is sent: reading the line changes no list
      equal to `users`. */
  predicate NeutralText(users: seq<string>, n: Name, t: Text) {
    match TextMeaning(n, t)
    case Listed(name) => Refuses(users, name)
    case Joined(name) => Refuses(users, name)
    case Left(name) => name !in users
    case Said(name) => Refuses(users, name)
    case Nothing => true
    case Reset => false
  }

  lemma RemovalChanges(users: seq<string>, n: string)
    ensures RemoveUser(users, n) == users <==> n !in users
  {
  }

  lemma NeutralTextExact(users: seq<string>, n: Name, t: Text)
    ensures ApplyLine(users, TextLine(n, t)) == users <==> NeutralText(users, n, t)
  {
    TextMeaningExact(n, t);
    match TextMeaning(n, t)
    case Left(forged) => RemovalChanges(users, forged);
    case _ =>
  }

  lemma JoinWordsAreNotLeaveWords(t: string)
    ensures !(TypedAs(t, JOIN_SUFFIX) && TypedAs(t, LEAVE_SUFFIX))
  {
    if TypedAs(t, JOIN_SUFFIX) {
      assert JOIN_SUFFIX[6] == JOIN_SUFFIX[1..][5] == 'd';
      assert EndsWith(t, JOIN_SUFFIX) ==> t[|t| - 16..][6] == 'd';
      assert t[|t| - 10] == 'd';
    }
    if TypedAs(t, LEAVE_SUFFIX) {
      assert LEAVE_SUFFIX[4] == LEAVE_SUFFIX[1..][3] == 't';
      assert EndsWith(t, LEAVE_SUFFIX) ==> t[|t| - 14..][4] == 't';
      assert t[|t| - 10] == 't';
    }
  }

  /** For a listed sender with an ordinary name only the typed words matter: the
      line changes the list exactly when they forge a new name or hit a listed one. */
  lemma ListedSenderExact(users: seq<string>, n: Name, t: Text)
    requires n in users && n != "" && Plain(n) && !(USER_PREFIX <= n)
    ensures ApplyLine(users, TextLine(n, t)) != users <==>
            || (PassesFor(n, t, JOIN_SUFFIX)
                && Forged(n, t, JOIN_SUFFIX) !in users && |users| < MAX_CLIENTS)
            || (PassesFor(n, t, LEAVE_SUFFIX) && Forged(n, t, LEAVE_SUFFIX) in users)
  {
    NeutralTextExact(users, n, t);
    PlainSeparator(n);
    assert n[..|n|] == n;
    JoinWordsAreNotLeaveWords(t);
    if PassesFor(n, t, JOIN_SUFFIX) {
      assert |Forged(n, t, JOIN_SUFFIX)| >= |n| + 1;
    }
  }

  /** The exact condition can fail: "joined the chat", said by bob, lists a user "bob:". */
  lemma SayingJoinedForgesAUser()
    ensures ApplyLine(["bob"], TextLine("bob", "joined the chat")) == ["bob", "bob:"]
  {
    var n: Name, t: Text := "bob", "joined the chat";
    assert JOIN_SUFFIX[1..] == t;
    assert (n + SEPARATOR + t)[..4] == "bob:";
    assert TextMeaning(n, t) == Joined("bob:");
    TextMeaningExact(n, t);
  }
}
