/** The Internet checksum of lab 16, part 4, client 2: a 32-bit accumulator over 16-bit
    words, folded to 16 bits and complemented (RFC 1071 section 4.1). Words are read as
    a little-endian host reads them. */
module InternetChecksum {

  type Byte = x: int | 0 <= x < 256
  type Word = x: int | 0 <= x < 0x1_0000

  const WRAP := 0x1_0000_0000
  const ONES := 0xffff

  // ---- words

  function WordOf(lo: Byte, hi: Byte): Word {
    lo + 0x100 * hi
  }

  /** The 16-bit words of a buffer; a last odd byte counts as a word of its own. */
  function Words(data: seq<Byte>): seq<Word> {
    if data == [] then []
    else if |data| == 1 then [data[0]]
    else [WordOf(data[0], data[1])] + Words(data[2..])
  }

  function Sum(words: seq<Word>): nat {
    if words == [] then 0 else words[0] + Sum(words[1..])
  }

  lemma {:induction false} SumAppend(a: seq<Word>, b: seq<Word>)
    ensures Sum(a + b) == Sum(a) + Sum(b)
    decreases |a|
  {
    if a == [] {
      assert a + b == b;
    } else {
      assert (a + b)[1..] == a[1..] + b;
      SumAppend(a[1..], b);
    }
  }

  lemma {:induction false} SumBound(words: seq<Word>)
    ensures Sum(words) <= |words| * ONES
    decreases |words|
  {
    if words != [] {
      SumBound(words[1..]);
    }
  }

  // ---- one's complement reduction

  /** The representative of n modulo 65535 in 1..65535, and 0 only for 0. */
  function Fold(n: nat): (w: Word)
    ensures w == 0 <==> n == 0
    ensures w % ONES == n % ONES
  {
    if n == 0 then 0 else 1 + (n - 1) % ONES
  }

  /** What the program returns for a buffer: the complement of the folded sum. */
  function Checksum(words: seq<Word>): Word {
    ONES - Fold(Sum(words))
  }

  /** Two folded values with the same residue agree unless exactly one sum is 0. */
  lemma FoldUnique(m: nat, n: nat)
    requires m % ONES == n % ONES && (m == 0 <==> n == 0)
    ensures Fold(m) == Fold(n)
  {
  }

  lemma FoldStep(n: nat)
    requires n >= 0x1_0000
    ensures Fold(n % 0x1_0000 + n / 0x1_0000) == Fold(n)
  {
    var lo, hi := n % 0x1_0000, n / 0x1_0000;
    assert n == lo + hi + ONES * hi;
    FoldUnique(lo + hi, n);
  }

  // ---- the program

  /** One addition in the 32-bit accumulator, with the carry it loses. */
  method AddWord(sum: nat, word: Word) returns (next: nat, ghost carry: nat)
    requires sum < WRAP
    ensures next < WRAP && next + WRAP * carry == sum + word
  {
    next := (sum + word) % WRAP;
    carry := (sum + word) / WRAP;
  }

  lemma FirstWord(rest: seq<Byte>)
    requires |rest| > 1
    ensures Sum(Words(rest)) == WordOf(rest[0], rest[1]) + Sum(Words(rest[2..]))
  {
  }

  lemma Remainder(n: nat, low: nat, carries: nat)
    requires n == low + WRAP * carries && low < WRAP
    ensures low == n % WRAP
  {
  }

  /** The adding loop: the word sum modulo 2^32. */
  method AddWords(data: array<Byte>, length: nat) returns (sum: nat)
    requires length <= data.Length
    ensures sum == Sum(Words(data[..length])) % WRAP
  {
    var at, len := 0, length;
    sum := 0;
    ghost var total, carries, carry := Sum(Words(data[..length])), 0, 0;
    assert data[..length] == data[0..length];
    while len > 1
      invariant at + len == length && sum < WRAP
      invariant sum + WRAP * carries + Sum(Words(data[at..length])) == total
    {
      ghost var rest := data[at..length];
      FirstWord(rest);
      assert rest[2..] == data[at + 2..length];
      sum, carry := AddWord(sum, WordOf(data[at], data[at + 1]));
      carries := carries + carry;
      at, len := at + 2, len - 2;
    }
    if len == 1 {
      assert data[at..length] == [data[at]];
      assert Words([data[at]]) == [data[at]];
      sum, carry := AddWord(sum, data[at]);
      carries := carries + carry;
    } else {
      assert data[at..length] == [];
    }
    Remainder(total, sum, carries);
  }

  /** The folding loop: at most two rounds, and always the folded value. */
  method FoldSum(sum0: nat) returns (sum: nat, rounds: nat)
    requires sum0 < WRAP
    ensures sum == Fold(sum0) && rounds <= 2
  {
    sum, rounds := sum0, 0;
    while sum / 0x1_0000 != 0
      invariant sum < WRAP && Fold(sum) == Fold(sum0)
      invariant rounds == 0 || (rounds == 1 && sum <= 2 * ONES) || (rounds == 2 && sum <= ONES)
      decreases sum
    {
      FoldStep(sum);
      sum, rounds := sum % 0x1_0000 + sum / 0x1_0000, rounds + 1;
    }
  }

  /** The checksum routine, for every buffer: right exactly when the lost carries of the
      32-bit accumulator cancel, which they do by not existing up to 131074 bytes. */
  method ComputeChecksum(data: array<Byte>, length: nat) returns (result: Word)
    requires length <= data.Length
    ensures result == Checksum(Words(data[..length])) <==> WrapHarmless(Sum(Words(data[..length])))
    ensures length <= 131074 ==> result == Checksum(Words(data[..length]))
  {
    ghost var total := Sum(Words(data[..length]));
    WrapExact(total);
    if length <= 131074 {
      ShortBuffersFit(data[..length]);
      NoWrap(total);
    }
    var sum := AddWords(data, length);
    var folded, rounds := FoldSum(sum);
    result := ONES - folded;
  }

  /** Each wrap drops 2^32, which is 1 modulo 65535. */
  predicate WrapHarmless(total: nat) {
    total / WRAP % ONES == 0 && (total % WRAP == 0 ==> total == 0)
  }

  lemma WrapExact(total: nat)
    ensures Fold(total % WRAP) == Fold(total) <==> WrapHarmless(total)
  {
    var q, r := total / WRAP, total % WRAP;
    assert total == r + q + ONES * (65537 * q);
    Residue(r + q, 65537 * q);
    SameResidue(r, q);
    if WrapHarmless(total) {
      FoldUnique(r, total);
    }
  }

  lemma Residue(n: nat, k: nat)
    ensures (n + ONES * k) % ONES == n % ONES
  {
  }

  lemma SameResidue(r: nat, q: nat)
    ensures (r + q) % ONES == r % ONES <==> q % ONES == 0
  {
  }

  lemma NoWrap(total: nat)
    requires total < WRAP
    ensures WrapHarmless(total)
  {
  }

  /** A buffer of at most 131074 bytes cannot wrap the accumulator. */
  lemma ShortBuffersFit(data: seq<Byte>)
    requires |data| <= 131074
    ensures Sum(Words(data)) < WRAP
  {
    WordCount(data);
    FewWordsFit(Words(data));
  }

  lemma FewWordsFit(words: seq<Word>)
    requires |words| <= 65537
    ensures Sum(words) < WRAP
  {
    SumBound(words);
  }

  lemma {:induction false} OnesSum(data: seq<Byte>)
    requires forall i | 0 <= i < |data| :: data[i] == 0xff
    ensures Sum(Words(data)) == |data| / 2 * ONES + |data| % 2 * 0xff
    decreases |data|
  {
    if |data| == 1 {
      assert Words(data) == [0xff];
    } else if |data| > 1 {
      FirstWord(data);
      OnesSum(data[2..]);
    }
  }

  /** One byte more can be too much: a buffer of 131075 bytes, all 0xff, for which the
      program's checksum is wrong. */
  lemma BoundIsTight(data: seq<Byte>)
    requires |data| == 131075 && forall i | 0 <= i < |data| :: data[i] == 0xff
    ensures Sum(Words(data)) == WRAP + 0xfe && !WrapHarmless(Sum(Words(data)))
  {
    OnesSum(data);
  }

  lemma {:induction false} WordCount(data: seq<Byte>)
    ensures |Words(data)| == (|data| + 1) / 2
    decreases |data|
  {
    if |data| > 1 {
      WordCount(data[2..]);
    }
  }

  // ---- a field that makes the buffer check out

  /** The buffer with a 16-bit field written at `at`, low byte first. */
  function WithField(data: seq<Byte>, at: nat, w: Word): (r: seq<Byte>)
    requires at + 1 < |data|
    ensures |r| == |data|
  {
    data[at := w % 0x100][at + 1 := w / 0x100]
  }

  lemma {:induction false} FieldInSum(data: seq<Byte>, at: nat, w: Word)
    requires at % 2 == 0 && at + 1 < |data|
    ensures Sum(Words(WithField(data, at, w))) == Sum(Words(data)) - WordOf(data[at], data[at + 1]) + w
    decreases |data|
  {
    var changed := WithField(data, at, w);
    if at == 0 {
      assert changed[2..] == data[2..];
      assert WordOf(w % 0x100, w / 0x100) == w;
    } else {
      assert changed[2..] == WithField(data[2..], at - 2, w);
      FieldInSum(data[2..], at - 2, w);
    }
  }

  lemma ZeroResidue(sum: nat, f: Word)
    ensures (sum + f) % ONES == 0 <==> (Fold(sum) + f) % ONES == 0
  {
    var k := (sum - Fold(sum)) / ONES;
    assert sum == Fold(sum) + ONES * k;
    Residue(Fold(sum) + f, k);
  }

  lemma FoldsToOnes(n: nat)
    ensures Fold(n) == ONES <==> n > 0 && n % ONES == 0
  {
  }

  lemma SmallMultiples(n: nat)
    requires n <= 2 * ONES
    ensures n % ONES == 0 <==> n == 0 || n == ONES || n == 2 * ONES
  {
  }

  /** Which field values make the whole buffer check to 0: the checksum of the buffer with
      the field zeroed, and the other form of zero when that checksum is 0. */
  lemma FieldChecksExactly(data: seq<Byte>, at: nat, f: Word)
    requires at % 2 == 0 && at + 1 < |data| && data[at] == 0 && data[at + 1] == 0
    ensures Checksum(Words(WithField(data, at, f))) == 0 <==>
            || f == Checksum(Words(data))
            || (Checksum(Words(data)) == 0 && f == ONES)
  {
    FieldInSum(data, at, f);
    var sum := Sum(Words(data));
    assert Sum(Words(WithField(data, at, f))) == sum + f;
    FoldsToOnes(sum + f);
    ZeroResidue(sum, f);
    SmallMultiples(Fold(sum) + f);
  }

  /** How the client fills its IP header: compute with the field zeroed, then store. */
  method StampChecksum(data: array<Byte>, length: nat, at: nat)
    requires length <= data.Length && length <= 131074
    requires at % 2 == 0 && at + 1 < length && data[at] == 0 && data[at + 1] == 0
    modifies data
    ensures Checksum(Words(data[..length])) == 0
    ensures forall i | 0 <= i < data.Length && i != at && i != at + 1 :: data[i] == old(data[i])
  {
    ghost var before := data[..length];
    var check := ComputeChecksum(data, length);
    data[at], data[at + 1] := check % 0x100, check / 0x100;
    assert data[..length] == WithField(before, at, check);
    FieldChecksExactly(before, at, check);
  }

  // ---- byte order and word order do not matter

  function Swap(w: Word): Word {
    w % 0x100 * 0x100 + w / 0x100
  }

  function SwapAll(words: seq<Word>): seq<Word> {
    if words == [] then [] else [Swap(words[0])] + SwapAll(words[1..])
  }

  /** The buffer with the two bytes of every word exchanged. */
  function SwapPairs(data: seq<Byte>): seq<Byte>
    requires |data| % 2 == 0
  {
    if data == [] then [] else [data[1], data[0]] + SwapPairs(data[2..])
  }

  lemma SwapWord(lo: Byte, hi: Byte)
    ensures Swap(WordOf(lo, hi)) == WordOf(hi, lo)
  {
    Split(WordOf(lo, hi), hi, lo);
  }

  lemma Split(w: int, q: int, r: int)
    requires w == r + 0x100 * q && 0 <= r < 0x100
    ensures w / 0x100 == q && w % 0x100 == r
  {
  }

  lemma {:induction false} SwapPairsWords(data: seq<Byte>)
    requires |data| % 2 == 0
    ensures Words(SwapPairs(data)) == SwapAll(Words(data))
    decreases |data|
  {
    if data != [] {
      var swapped, rest := SwapPairs(data), data[2..];
      SwapPairsWords(rest);
      assert swapped[0] == data[1] && swapped[1] == data[0] && swapped[2..] == SwapPairs(rest);
      assert Words(swapped) == [WordOf(data[1], data[0])] + Words(SwapPairs(rest));
      assert Words(data)[0] == WordOf(data[0], data[1]) && Words(data)[1..] == Words(rest);
      SwapWord(data[0], data[1]);
    }
  }

  /** Exchanging bytes multiplies by 256 modulo 65535. */
  lemma {:induction false} SwapAllSum(words: seq<Word>) returns (k: nat)
    ensures 0x100 * Sum(words) == Sum(SwapAll(words)) + ONES * k
    ensures Sum(SwapAll(words)) == 0 <==> Sum(words) == 0
    decreases |words|
  {
    if words == [] {
      k := 0;
    } else {
      var rest := SwapAllSum(words[1..]);
      k := rest + words[0] / 0x100;
      var first: int := words[0];
      assert 0x100 * first == Swap(first) + ONES * (first / 0x100);
      assert SwapAll(words)[1..] == SwapAll(words[1..]);
    }
  }

  lemma FoldFixed(w: Word)
    ensures Fold(w) == w
  {
  }

  lemma SwapFold(sum: nat, swapped: nat, k: nat)
    requires 0x100 * sum == swapped + ONES * k && (swapped == 0 <==> sum == 0)
    ensures Fold(swapped) == Swap(Fold(sum))
  {
    var f := Fold(sum);
    var q := (sum - f) / ONES;
    assert sum == f + ONES * q by {
      assert sum % ONES == f % ONES;
    }
    Residue(Swap(f), f / 0x100);
    assert 0x100 * f == Swap(f) + ONES * (f / 0x100);
    Residue(swapped, k);
    ScaledResidue(f, q, sum);
    FoldUnique(swapped, Swap(f));
    FoldFixed(Swap(f));
  }

  lemma ScaledResidue(f: nat, q: int, sum: nat)
    requires sum == f + ONES * q
    ensures (0x100 * sum) % ONES == (0x100 * f) % ONES
  {
    assert 0x100 * sum == 0x100 * f + ONES * (0x100 * q);
    if q >= 0 {
      Residue(0x100 * f, 0x100 * q);
    } else {
      Residue(0x100 * sum, -(0x100 * q));
    }
  }

  /** Byte order independence: swapping the bytes of every word swaps the checksum. */
  lemma SwappedChecksum(words: seq<Word>)
    ensures Checksum(SwapAll(words)) == Swap(Checksum(words))
  {
    var k := SwapAllSum(words);
    SwapFold(Sum(words), Sum(SwapAll(words)), k);
    SwapComplement(Fold(Sum(words)));
  }

  lemma SwapComplement(w: Word)
    ensures Swap(ONES - w) == ONES - Swap(w)
  {
    var lo, hi := w % 0x100, w / 0x100;
    assert ONES - w == (0xff - lo) + 0x100 * (0xff - hi);
  }

  lemma ByteOrderIndependence(data: seq<Byte>)
    requires |data| % 2 == 0
    ensures Checksum(Words(SwapPairs(data))) == Swap(Checksum(Words(data)))
  {
    SwapPairsWords(data);
    SwappedChecksum(Words(data));
  }

  lemma SumWithout(words: seq<Word>, i: nat)
    requires i < |words|
    ensures Sum(words) == words[i] + Sum(words[..i] + words[i + 1..])
  {
    var rest := [words[i]] + words[i + 1..];
    assert words == words[..i] + rest && rest[1..] == words[i + 1..];
    SumAppend(words[..i], rest);
    SumAppend(words[..i], words[i + 1..]);
  }

  lemma MultisetWithout(words: seq<Word>, i: nat)
    requires i < |words|
    ensures multiset(words[..i] + words[i + 1..]) == multiset(words) - multiset{words[i]}
  {
    assert words == words[..i] + ([words[i]] + words[i + 1..]);
  }

  lemma SameRest(a: seq<Word>, b: seq<Word>, i: nat)
    requires a != [] && multiset(a) == multiset(b) && i < |b| && b[i] == a[0]
    ensures multiset(a[1..]) == multiset(b[..i] + b[i + 1..])
  {
    MultisetWithout(a, 0);
    MultisetWithout(b, i);
    assert a[..0] + a[1..] == a[1..];
  }

  lemma {:induction false} SumOfPermutation(a: seq<Word>, b: seq<Word>)
    requires multiset(a) == multiset(b)
    ensures Sum(a) == Sum(b)
    decreases |a|
  {
    if a != [] {
      assert a[0] in multiset(b);
      var i :| 0 <= i < |b| && b[i] == a[0];
      SameRest(a, b, i);
      SumOfPermutation(a[1..], b[..i] + b[i + 1..]);
      SumWithout(b, i);
    } else {
      assert |multiset(b)| == 0;
    }
  }

  /** The order of the words does not matter either. */
  lemma ReorderedChecksum(a: seq<Word>, b: seq<Word>)
    requires multiset(a) == multiset(b)
    ensures Checksum(a) == Checksum(b)
  {
    SumOfPermutation(a, b);
  }
}
