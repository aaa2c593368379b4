/** C strings as the sequence of bytes before the terminating NUL, with the
    library operations that the programs apply to them. */
module CText {
  import opened Options

  /** What `snprintf(buffer, size, "%s", s)` leaves in a buffer of `size` bytes. */
  function Cut(s: string, size: nat): string
    requires size > 0
  {
    if |s| < size then s else s[..size - 1]
  }

  lemma CutKeepsStart(s: string, size: nat)
    requires size > 0
    ensures Cut(s, size) <= s && |Cut(s, size)| == if |s| < size then |s| else size - 1
  {
  }

  predicate EndsWith(s: string, suffix: string) {
    |suffix| <= |s| && s[|s| - |suffix|..] == suffix
  }

  predicate OccursAt(s: string, p: string, k: nat) {
    k + |p| <= |s| && s[k..k + |p|] == p
  }

  /** The position `strstr` finds: the first occurrence at or after `from`. */
  function FirstIndexFrom(s: string, p: string, from: nat): (r: Option<nat>)
    ensures r.Some? ==> from <= r.value && OccursAt(s, p, r.value)
    ensures r.Some? ==> forall k: nat | from <= k < r.value :: !OccursAt(s, p, k)
    ensures r.None? ==> forall k: nat | from <= k :: !OccursAt(s, p, k)
    decreases |s| - from
  {
    if from + |p| > |s| then None
    else if OccursAt(s, p, from) then Some(from)
    else FirstIndexFrom(s, p, from + 1)
  }

  function FirstIndex(s: string, p: string): (r: Option<nat>)
    ensures r.Some? ==> OccursAt(s, p, r.value)
    ensures r.Some? ==> forall k: nat | k < r.value :: !OccursAt(s, p, k)
    ensures r.None? ==> forall k: nat :: !OccursAt(s, p, k)
  {
    FirstIndexFrom(s, p, 0)
  }

  /** An occurrence found in a prefix of a text is the one found in the text. */
  lemma FoundInPrefix(s: string, head: string, p: string)
    requires head <= s && FirstIndex(head, p).Some?
    ensures FirstIndex(s, p) == FirstIndex(head, p)
  {
    var at := FirstIndex(head, p).value;
    forall k: nat | k <= at
      ensures OccursAt(s, p, k) <==> OccursAt(head, p, k)
    {
      assert s[..|head|][k..k + |p|] == s[k..k + |p|];
    }
  }

  /** The repository's own substring search: two cursors restarted at each start. */
  method FindSubstr(str: string, substr: string) returns (r: Option<nat>)
    ensures r == FirstIndex(str, substr)
    ensures r.None? <==> forall k: nat :: !OccursAt(str, substr, k)
  {
    if substr == [] {
      assert OccursAt(str, substr, 0);
      return Some(0);
    }
    var start := 0;
    while start < |str|
      invariant start <= |str|
      invariant forall k: nat | k < start :: !OccursAt(str, substr, k)
    {
      var startCopy, subCopy := start, 0;
      while startCopy < |str| && subCopy < |substr| && substr[subCopy] == str[startCopy]
        invariant startCopy == start + subCopy <= |str|
        invariant subCopy <= |substr|
        invariant forall k | 0 <= k < subCopy :: str[start + k] == substr[k]
      {
        startCopy, subCopy := startCopy + 1, subCopy + 1;
      }
      if subCopy == |substr| {
        assert OccursAt(str, substr, start);
        return Some(start);
      }
      assert start + |substr| <= |str| ==> str[start..start + |substr|][subCopy] == str[startCopy];
      start := start + 1;
    }
    return None;
  }
}
