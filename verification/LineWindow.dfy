/** The message window that both chat programs keep: a fixed number of lines,
    the oldest pushed out by `memmove` once it is full. */
module LineWindow {
  import opened Memory

  const MAX_MESSAGES := 64

  function PushLine<T>(window: seq<T>, line: T): seq<T> {
    if |window| < MAX_MESSAGES then window + [line] else window[1..] + [line]
  }

  function PushLines(window: seq<string>, lines: seq<string>): seq<string>
    decreases lines
  {
    if lines == [] then window else PushLines(PushLine(window, lines[0]), lines[1..])
  }

  function LastLines(lines: seq<string>): seq<string> {
    if |lines| <= MAX_MESSAGES then lines else lines[|lines| - MAX_MESSAGES..]
  }

  lemma PushKeepsLast(log: seq<string>, line: string)
    ensures PushLine(LastLines(log), line) == LastLines(log + [line])
  {
  }

  /** Pushing one by one keeps exactly the last 64 lines of the whole log. */
  lemma {:induction false} WindowIsLastLines(log: seq<string>, lines: seq<string>)
    ensures PushLines(LastLines(log), lines) == LastLines(log + lines)
    decreases |lines|
  {
    if lines == [] {
      assert log + lines == log;
    } else {
      var longer := log + [lines[0]];
      PushKeepsLast(log, lines[0]);
      WindowIsLastLines(longer, lines[1..]);
      assert longer + lines[1..] == log + lines;
    }
  }

  /** In-place form, over the array and count that a chat program keeps. */
  method PushInPlace<T>(messages: array<T>, count: nat, line: T) returns (newCount: nat)
    requires messages.Length == MAX_MESSAGES && count <= MAX_MESSAGES
    modifies messages
    ensures newCount <= MAX_MESSAGES
    ensures messages[..newCount] == PushLine(old(messages[..count]), line)
  {
    if count < MAX_MESSAGES {
      messages[count] := line;
      newCount := count + 1;
    } else {
      CloseGap(messages, 0, MAX_MESSAGES);
      messages[MAX_MESSAGES - 1] := line;
      newCount := count;
    }
  }
}
