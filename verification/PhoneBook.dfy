/** The phone book of lab 6: a doubly linked list of heap nodes behind a global head
    pointer. `nodes` is the list it represents; `freed` logs every call of free. */
module PhoneBook {
  import opened Memory

  const FIELD := 10

  type Byte = x: int | 0 <= x < 256
  // A char[10] field, compared byte by byte whether or not it holds a terminator.
  type Field = s: seq<Byte> | |s| == FIELD witness seq(FIELD, _ => 0)

  datatype Abonent = Abonent(name: Field, secondName: Field, tel: Field)

  // ---- records

  /** First place where two fields differ, or FIELD. */
  function FirstDifference(a: Field, b: Field, from: nat): (k: nat)
    requires from <= FIELD
    ensures from <= k <= FIELD && (k < FIELD ==> a[k] != b[k])
    ensures forall i | from <= i < k :: a[i] == b[i]
    decreases FIELD - from
  {
    if from == FIELD || a[from] != b[from] then from else FirstDifference(a, b, from + 1)
  }

  /** 0 exactly for equal fields, otherwise the difference of the first differing bytes. */
  method StrCmp10(first: Field, second: Field) returns (r: int)
    ensures r == 0 <==> first == second
    ensures first != second ==>
              var k := FirstDifference(first, second, 0);
              k < FIELD && r == first[k] as int - second[k] as int
  {
    for i := 0 to FIELD
      invariant first[..i] == second[..i]
      invariant FirstDifference(first, second, 0) == FirstDifference(first, second, i)
    {
      if first[i] != second[i] {
        return first[i] as int - second[i] as int;
      }
    }
    assert first == first[..FIELD] == second[..FIELD] == second;
    return 0;
  }

  /** Index of the first record with this name, or -1. */
  function FirstNamed(records: seq<Abonent>, name: Field): (i: int)
    ensures -1 <= i < |records|
    ensures i == -1 ==> forall k | 0 <= k < |records| :: records[k].name != name
    ensures i >= 0 ==> records[i].name == name && forall k | 0 <= k < i :: records[k].name != name
  {
    FirstWhere(records, (r: Abonent) => r.name == name)
  }

  function WithoutFirst(records: seq<Abonent>, name: Field): seq<Abonent> {
    var i := FirstNamed(records, name);
    if i == -1 then records else DropAt(records, i)
  }

  function Named(records: seq<Abonent>, name: Field): seq<Abonent> {
    if records == [] then []
    else (if records[0].name == name then [records[0]] else []) + Named(records[1..], name)
  }

  lemma WithoutFirstTail(records: seq<Abonent>, name: Field)
    requires records != []
    ensures WithoutFirst(records, name) ==
            if records[0].name == name then records[1..]
            else [records[0]] + WithoutFirst(records[1..], name)
  {
  }

  /** Removal takes away the oldest record of that name and nothing of any other name. */
  lemma {:induction false} RemovalTakesOldest(records: seq<Abonent>, name: Field, other: Field)
    ensures Named(WithoutFirst(records, name), other) ==
            if other == name && Named(records, name) != [] then Named(records, name)[1..]
            else Named(records, other)
    decreases |records|
  {
    if records != [] {
      WithoutFirstTail(records, name);
      if records[0].name != name {
        RemovalTakesOldest(records[1..], name, other);
        assert ([records[0]] + WithoutFirst(records[1..], name))[1..] == WithoutFirst(records[1..], name);
      }
    }
  }

  lemma {:induction false} NamedAppend(records: seq<Abonent>, r: Abonent, name: Field)
    ensures Named(records + [r], name) == Named(records, name) + if r.name == name then [r] else []
    decreases |records|
  {
    if records == [] {
      assert records + [r] == [r] && [r][1..] == [];
    } else {
      var more := records + [r];
      var head := if records[0].name == name then [records[0]] else [];
      assert more[0] == records[0] && more[1..] == records[1..] + [r];
      assert Named(more, name) == head + Named(more[1..], name);
      NamedAppend(records[1..], r, name);
    }
  }

  // ---- whole histories, on records

  datatype Op = Add(data: Abonent, memory: bool) | Remove(name: Field) | Clear

  function Apply(records: seq<Abonent>, op: Op): seq<Abonent> {
    match op
    case Add(data, memory) => if memory then records + [data] else records
    case Remove(name) => WithoutFirst(records, name)
    case Clear => []
  }

  function Replay(ops: seq<Op>): seq<Abonent> {
    if ops == [] then [] else Apply(Replay(ops[..|ops| - 1]), ops[|ops| - 1])
  }

  /** The records of one name as a queue of their own: additions at the back, removals
      of that name at the front, operations on other names without effect. */
  function Queue(ops: seq<Op>, name: Field): seq<Abonent> {
    if ops == [] then []
    else
      var before := Queue(ops[..|ops| - 1], name);
      match ops[|ops| - 1]
      case Add(data, memory) => if memory && data.name == name then before + [data] else before
      case Remove(n) => if n == name && before != [] then before[1..] else before
      case Clear => []
  }

  /** Over every history, the book is one independent queue per name. */
  lemma {:induction false} NamesAreQueues(ops: seq<Op>, name: Field)
    ensures Named(Replay(ops), name) == Queue(ops, name)
    decreases |ops|
  {
    if ops != [] {
      var before := ops[..|ops| - 1];
      NamesAreQueues(before, name);
      match ops[|ops| - 1]
      case Add(data, memory) => NamedAppend(Replay(before), data, name);
      case Remove(n) =>
        RemovalTakesOldest(Replay(before), n, name);
      case Clear =>
    }
  }

  /** Each record was put there by the addition at that place of the history. */
  ghost predicate AddedBy(records: seq<Abonent>, ops: seq<Op>, at: seq<nat>) {
    |at| == |records| && forall i | 0 <= i < |at| :: at[i] < |ops| && ops[at[i]] == Add(records[i], true)
  }

  lemma AddedByMore(records: seq<Abonent>, before: seq<Op>, at: seq<nat>, last: Op)
    requires AddedBy(records, before, at)
    ensures AddedBy(records, before + [last], at)
    ensures last.Add? && last.memory ==> AddedBy(records + [last.data], before + [last], at + [|before|])
    ensures forall i | 0 <= i < |at| :: AddedBy(DropAt(records, i), before + [last], DropAt(at, i))
  {
  }

  /** The whole book is in the order of the additions: `at` says which one made each record. */
  lemma {:induction false} OldestFirst(ops: seq<Op>) returns (at: seq<nat>)
    ensures AddedBy(Replay(ops), ops, at) && Increasing(at)
    decreases |ops|
  {
    at := [];
    if ops != [] {
      var before, last := ops[..|ops| - 1], ops[|ops| - 1];
      var records := Replay(before);
      at := OldestFirst(before);
      assert ops == before + [last];
      AddedByMore(records, before, at, last);
      match last
      case Add(data, memory) =>
        if memory {
          AppendKeepsOrder(at, |before|);
          at := at + [|before|];
        }
      case Remove(name) =>
        if FirstNamed(records, name) != -1 {
          DropKeepsOrder(at, FirstNamed(records, name));
          at := DropAt(at, FirstNamed(records, name));
        }
      case Clear => at := [];
    }
  }

  // ---- the list on the heap

  class Node {
    var data: Abonent
    var next: Node?
    var prev: Node?

    constructor (data: Abonent)
      ensures this.data == data && next == null && prev == null
    {
      this.data := data;
      next, prev := null, null;
    }
  }

  function At(nodes: seq<Node>, i: int): Node? {
    if 0 <= i < |nodes| then nodes[i] else null
  }

  ghost predicate Distinct(nodes: seq<Node>) {
    forall i, j | 0 <= i < j < |nodes| :: nodes[i] != nodes[j]
  }

  /** `next` and `prev` of every node lead to its neighbours, null at both ends. */
  ghost predicate Chained(nodes: seq<Node>)
    reads nodes
  {
    && (forall i {:trigger nodes[i].next} | 0 <= i < |nodes| :: nodes[i].next == At(nodes, i + 1))
    && (forall i {:trigger nodes[i].prev} | 0 <= i < |nodes| :: nodes[i].prev == At(nodes, i - 1))
  }

  lemma StillDistinct(nodes: seq<Node>, i: nat)
    requires i < |nodes| && Distinct(nodes)
    ensures Distinct(DropAt(nodes, i))
  {
  }

  /** Every node ever made is in the list or was freed once; none is both. */
  ghost predicate Accounted(made: set<Node>, nodes: seq<Node>, freed: seq<Node>) {
    && made == (set n | n in nodes) + (set n | n in freed)
    && (forall n | n in nodes :: n !in freed)
    && (forall i, j | 0 <= i < j < |freed| :: freed[i] != freed[j])
  }

  lemma MakingAdds(made: set<Node>, nodes: seq<Node>, freed: seq<Node>, node: Node)
    requires Accounted(made, nodes, freed) && node !in made
    ensures node !in nodes && Accounted(made + {node}, nodes + [node], freed)
  {
  }

  lemma FreeingMoves(made: set<Node>, nodes: seq<Node>, freed: seq<Node>, i: nat)
    requires i < |nodes| && Accounted(made, nodes, freed)
    requires Distinct(nodes)
    ensures Accounted(made, DropAt(nodes, i), freed + [nodes[i]])
  {
    var rest := DropAt(nodes, i);
    assert nodes[i] in nodes;
    forall n | n in rest ensures n in nodes && n != nodes[i] {
      var k :| 0 <= k < |rest| && rest[k] == n;
      assert n == nodes[if k < i then k else k + 1];
    }
    forall n | n in nodes && n != nodes[i] ensures n in rest {
      var k :| 0 <= k < |nodes| && nodes[k] == n;
      assert n == rest[if k < i then k else k - 1];
    }
  }

  class Book {
    var head: Node?
    ghost var nodes: seq<Node>
    ghost var made: set<Node>
    ghost var freed: seq<Node>

    /** The pointers spell out `nodes`, without a cycle. */
    ghost predicate Linked()
      reads this, nodes
    {
      head == At(nodes, 0) && Distinct(nodes) && Chained(nodes)
    }

    ghost predicate Valid()
      reads this, nodes
    {
      Linked() && Accounted(made, nodes, freed)
    }

    ghost function Records(): (r: seq<Abonent>)
      reads this, nodes
      ensures |r| == |nodes| && forall i | 0 <= i < |r| :: r[i] == nodes[i].data
    {
      seq(|nodes|, i requires 0 <= i < |nodes| reads this, nodes => nodes[i].data)
    }

    constructor ()
      ensures Valid() && Records() == [] && made == {}
    {
      head, nodes, made, freed := null, [], {}, [];
    }

    /** free(): never twice for the same node, never for a node that was not made. */
    ghost method Free(n: Node)
      requires n in made && n !in freed
      modifies this`freed
      ensures freed == old(freed) + [n]
    {
      freed := freed + [n];
    }

    method Size() returns (count: nat)
      requires Valid()
      ensures count == |Records()|
    {
      var current := head;
      count := 0;
      while current != null
        invariant count <= |nodes| && current == At(nodes, count)
        decreases |nodes| - count
      {
        current := current.next;
        count := count + 1;
      }
    }

    /** The walk to the end of a list that is not empty. */
    method Last() returns (current: Node)
      requires Linked() && head != null
      ensures nodes != [] && current == nodes[|nodes| - 1]
    {
      current := head;
      ghost var i := 0;
      while current.next != null
        invariant 0 <= i < |nodes| && current == nodes[i]
        decreases |nodes| - i
      {
        current := current.next;
        i := i + 1;
      }
    }

    /** `memory` says whether malloc succeeds. The result is true on failure. */
    method Add(data: Abonent, memory: bool) returns (failed: bool)
      requires Valid()
      modifies this, nodes
      ensures Valid() && failed == !memory
      ensures Records() == Apply(old(Records()), Op.Add(data, memory))
      ensures freed == old(freed) && old(made) <= made
    {
      if head == null {
        if !memory {
          return true;
        }
        AddFirst(data);
        return false;
      }
      var current := Last();
      if !memory {
        return true;
      }
      AddAfter(current, data);
      return false;
    }

    method AddFirst(data: Abonent)
      requires Valid() && head == null
      modifies this
      ensures Valid() && Records() == old(Records()) + [data]
      ensures freed == old(freed) && old(made) <= made
    {
      var node := new Node(data);
      MakingAdds(made, nodes, freed, node);
      head := node;
      nodes, made := [node], made + {node};
    }

    method AddAfter(last: Node, data: Abonent)
      requires Valid() && nodes != [] && last == nodes[|nodes| - 1]
      modifies this, last
      ensures Valid() && Records() == old(Records()) + [data]
      ensures freed == old(freed) && old(made) <= made
    {
      var node := new Node(data);
      MakingAdds(made, nodes, freed, node);
      Append(last, node);
      made := made + {node};
    }

    /** Ties a new node to the last one. */
    method Append(last: Node, node: Node)
      requires Linked() && last == At(nodes, |nodes| - 1)
      requires node !in nodes && node.next == null
      modifies this`nodes, last`next, node`prev
      ensures Linked() && nodes == old(nodes) + [node]
      ensures Records() == old(Records()) + [node.data]
    {
      last.next := node;
      node.prev := last;
      nodes := nodes + [node];
    }

    /** The walk that looks for a name: null when no node has it. */
    method FirstWith(name: Field) returns (current: Node?, ghost i: int)
      requires Valid()
      ensures i == FirstNamed(Records(), name)
      ensures current == At(nodes, FirstNamed(Records(), name))
    {
      current := head;
      i := 0;
      while current != null
        invariant 0 <= i <= |nodes| && current == At(nodes, i)
        invariant forall k | 0 <= k < i :: nodes[k].data.name != name
        decreases |nodes| - i
      {
        var r := StrCmp10(current.data.name, name);
        if r == 0 {
          return;
        }
        current := current.next;
        i := i + 1;
      }
      i := -1;
    }

    method Remove(name: Field) returns (failed: bool)
      requires Valid()
      modifies this, nodes
      ensures Valid() && failed == (FirstNamed(old(Records()), name) == -1)
      ensures Records() == Apply(old(Records()), Op.Remove(name))
      ensures made == old(made)
      ensures freed == if failed then old(freed)
                       else old(freed) + [old(nodes)[FirstNamed(old(Records()), name)]]
    {
      var current, i := FirstWith(name);
      if current == null {
        return true;
      }
      Discard(current, i);
      return false;
    }

    method Discard(current: Node, ghost i: nat)
      requires Valid() && i < |nodes| && nodes[i] == current
      modifies this, nodes
      ensures Valid() && made == old(made) && freed == old(freed) + [current]
      ensures Records() == DropAt(old(Records()), i)
    {
      FreeingMoves(made, nodes, freed, i);
      Unlink(current, i);
      Free(current);
    }

    /** Node i is bypassed in both directions; all other pointers still spell out `nodes`. */
    ghost predicate Bypassed(i: nat)
      requires i < |nodes|
      reads this, nodes
    {
      && head == (if i == 0 then At(nodes, 1) else nodes[0])
      && (forall k {:trigger nodes[k].next} | 0 <= k < |nodes| ::
            nodes[k].next == At(nodes, if k == i - 1 then i + 1 else k + 1))
      && (forall k {:trigger nodes[k].prev} | 0 <= k < |nodes| ::
            nodes[k].prev == At(nodes, if k == i + 1 then i - 1 else k - 1))
    }

    /** The three pointer updates around a node that is going away. */
    method Bypass(current: Node, ghost i: nat)
      requires Linked() && i < |nodes| && nodes[i] == current
      modifies this`head, nodes
      ensures Bypassed(i) && Records() == old(Records())
    {
      var prev, next := current.prev, current.next;
      assert prev == At(nodes, i - 1) && next == At(nodes, i + 1);
      assert head == current <==> i == 0;
      if head == current {
        head := next;
      }
      if prev != null {
        prev.next := next;
      }
      if next != null {
        next.prev := prev;
      }
    }

    method Unlink(current: Node, ghost i: nat)
      requires Linked() && i < |nodes| && nodes[i] == current
      modifies this`head, this`nodes, nodes
      ensures made == old(made) && freed == old(freed)
      ensures Linked() && nodes == DropAt(old(nodes), i)
      ensures Records() == DropAt(old(Records()), i)
    {
      Bypass(current, i);
      BypassedLinks(i);
      StillDistinct(nodes, i);
      nodes := DropAt(nodes, i);
    }

    /** Leaving a bypassed node out of `nodes` makes the pointers spell out the rest. */
    lemma BypassedLinks(i: nat)
      requires i < |nodes| && Bypassed(i)
      ensures head == At(DropAt(nodes, i), 0) && Chained(DropAt(nodes, i))
    {
    }

    /** Every node is freed exactly once, in list order. */
    method Clear()
      requires Valid()
      modifies this
      ensures Valid() && Records() == [] && made == old(made)
      ensures freed == old(freed) + old(nodes)
    {
      if head == null {
        return;
      }
      var current := head;
      ghost var i := 0;
      while current != null
        invariant 0 <= i <= |nodes| && current == At(nodes, i)
        invariant freed == old(freed) + nodes[..i]
        invariant nodes == old(nodes) && made == old(made) && Linked()
        invariant forall k | i <= k < |nodes| :: nodes[k] !in freed
        decreases |nodes| - i
      {
        assert current !in freed;  // what is read next is still allocated
        var next := current.next;
        Free(current);
        current := next;
        i := i + 1;
      }
      head, nodes := null, [];
    }

    /** Every record with the name, in list order: what the search prints. */
    method Find(name: Field) returns (found: seq<Abonent>)
      requires Valid()
      ensures found == Named(Records(), name)
    {
      var current := head;
      ghost var i := 0;
      found := [];
      while current != null
        invariant 0 <= i <= |nodes| && current == At(nodes, i)
        invariant found == Named(Records()[..i], name)
        decreases |nodes| - i
      {
        var r := StrCmp10(current.data.name, name);
        NamedAppend(Records()[..i], current.data, name);
        assert Records()[..i + 1] == Records()[..i] + [current.data];
        if r == 0 {
          found := found + [current.data];
        }
        current := current.next;
        i := i + 1;
      }
      assert Records()[..i] == Records();
    }
  }
}
