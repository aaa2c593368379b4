/** What the programs do to the tables they keep at the front of fixed arrays: search them,
    close a gap with `memmove`, or fill it with the last entry. */
module Memory {

  /** Index of the first entry that satisfies p, or -1. */
  function FirstWhere<T>(s: seq<T>, p: T -> bool): (r: int)
    ensures -1 <= r < |s|
    ensures r == -1 ==> forall i | 0 <= i < |s| :: !p(s[i])
    ensures r >= 0 ==> p(s[r]) && forall i | 0 <= i < r :: !p(s[i])
  {
    if s == [] then -1
    else if p(s[0]) then 0
    else
      var rest := FirstWhere(s[1..], p);
      assert forall i | 1 <= i < |s| :: s[i] == s[1..][i - 1];
      if rest == -1 then -1 else rest + 1
  }

  function DropAt<T>(s: seq<T>, i: int): (r: seq<T>)
    requires 0 <= i < |s|
    ensures |r| == |s| - 1
    ensures forall k | 0 <= k < |r| :: r[k] == if k < i then s[k] else s[k + 1]
  {
    s[..i] + s[i + 1..]
  }

  ghost predicate Increasing(at: seq<nat>) {
    forall i, j | 0 <= i < j < |at| :: at[i] < at[j]
  }

  lemma DropKeepsOrder(at: seq<nat>, i: nat)
    requires i < |at| && Increasing(at)
    ensures Increasing(DropAt(at, i))
  {
  }

  lemma AppendKeepsOrder(at: seq<nat>, last: nat)
    requires Increasing(at) && forall i | 0 <= i < |at| :: at[i] < last
    ensures Increasing(at + [last])
  {
  }

  /** The last entry takes the place of entry i. */
  function SwapOut<T>(s: seq<T>, i: nat): (r: seq<T>)
    requires i < |s|
    ensures |r| == |s| - 1
    ensures forall k | 0 <= k < |r| :: r[k] == if k == i then s[|s| - 1] else s[k]
  {
    s[i := s[|s| - 1]][..|s| - 1]
  }

  lemma SwapOutRemovesOne<T>(s: seq<T>, i: nat)
    requires i < |s|
    ensures multiset(SwapOut(s, i)) == multiset(s) - multiset{s[i]}
  {
    var n := |s| - 1;
    assert s == s[..n] + [s[n]];
    assert SwapOut(s, i) == if i < n then s[..n][i := s[n]] else s[..n];
  }

  /** Moves the entries after `index` one place down over it. */
  method CloseGap<T>(a: array<T>, index: nat, count: nat)
    requires index < count <= a.Length
    modifies a
    ensures a[..count - 1] == DropAt(old(a[..count]), index)
    ensures a[count - 1..] == old(a[count - 1..])
  {
    forall i | index <= i < count - 1 {
      a[i] := a[i + 1];
    }
  }
}
