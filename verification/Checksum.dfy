/** The Internet checksum (section 1 of RFC 1071) as the ping code computes it on a
    little-endian machine, and the echo request it is stored in. */
module Checksum {
  import opened Bytes
  import Arithmetic

  const TWO_TO_THE_32 := 0x1_0000_0000

  // ---------- specification ----------

  function WordAt(data: seq<Byte>, k: nat): Word
    requires 2 * k + 1 < |data|
  {
    data[2 * k] + 0x100 * (data[2 * k + 1] as int)
  }

  /** The sum of the first n words. */
  function Words(data: seq<Byte>, n: nat): (s: nat)
    requires 2 * n <= |data|
    ensures s <= n * 0xFFFF
  {
    if n == 0 then 0 else Words(data, n - 1) + WordAt(data, n - 1)
  }

  /** The sum of all words; an odd last byte counts as a word of its own. */
  function WordSum(data: seq<Byte>): nat {
    Words(data, |data| / 2) + if |data| % 2 == 1 then data[|data| - 1] else 0
  }

  /** A 32-bit addition. */
  function Add32(sum: nat, x: nat): (r: nat)
    ensures r < TWO_TO_THE_32
  {
    (sum + x) % TWO_TO_THE_32
  }

  /** The two folding steps on a 32-bit sum, and the cast to 16 bits. */
  function FoldTwice(sum: nat): Word
    requires sum < TWO_TO_THE_32
  {
    var once := sum / 0x1_0000 + sum % 0x1_0000;
    (once + once / 0x1_0000) % 0x1_0000
  }

  /** The checksum as the code computes it: the sum wraps at 32 bits. */
  function Result(data: seq<Byte>): Word {
    0xFFFF - FoldTwice(Add32(0, WordSum(data)))
  }

  /** The one's complement sum of section 1 of RFC 1071: the residue modulo 65535, with
      65535 for every non-zero multiple. */
  function OnesComplementSum(data: seq<Byte>): Word {
    var s := WordSum(data);
    if s == 0 then 0 else (s - 1) % 0xFFFF + 1
  }

  /** The most bytes whose sum fits in 32 bits whatever they are. */
  const MAX_LENGTH := 131074

  // ---------- the implementation ----------

  lemma AddWraps(s: nat, x: nat)
    ensures Add32(Add32(0, s), x) == Add32(0, s + x)
  {
  }

  method Checksum(b: array<Byte>, length: nat) returns (result: Word)
    requires length <= b.Length
    ensures result == Result(b[..length])
  {
    ghost var data := b[..length];
    var len, buf, sum := length, 0, 0;
    while len > 1
      invariant buf * 2 + len == length
      invariant sum == Add32(0, Words(data, buf))
    {
      var word := b[2 * buf] + 0x100 * (b[2 * buf + 1] as int);
      assert word == WordAt(data, buf);
      AddWraps(Words(data, buf), word);
      sum := Add32(sum, word);
      buf := buf + 1;
      len := len - 2;
    }
    if len == 1 {
      AddWraps(Words(data, buf), b[2 * buf]);
      sum := Add32(sum, b[2 * buf]);
    }
    assert sum == Add32(0, WordSum(data));
    result := 0xFFFF - FoldTwice(sum);
  }

  // ---------- the sum ----------

  /** Within the bound nothing wraps. */
  lemma SumFits(data: seq<Byte>)
    requires |data| <= MAX_LENGTH
    ensures WordSum(data) < TWO_TO_THE_32
  {
  }

  /** Two folds are enough: the result is the residue, and it is zero only for zero. */
  lemma FoldTwiceIsResidue(sum: nat)
    requires sum < TWO_TO_THE_32
    ensures FoldTwice(sum) == if sum == 0 then 0 else (sum - 1) % 0xFFFF + 1
  {
    var hi, lo := sum / 0x1_0000, sum % 0x1_0000;
    var once := hi + lo;
    if 0 < once <= 0xFFFF {
      Arithmetic.DivModUnique(sum - 1, hi, once - 1, 0xFFFF);
    } else if once > 0xFFFF {
      Arithmetic.DivModUnique(sum - 1, hi + 1, once - 0x1_0000, 0xFFFF);
    }
  }

  lemma ResidueCongruent(s: nat)
    requires s > 0
    ensures (0xFFFF - ((s - 1) % 0xFFFF + 1) + s) % 0xFFFF == 0
  {
    var q := (s - 1) / 0xFFFF;
    Arithmetic.DivModUnique(0xFFFF - ((s - 1) % 0xFFFF + 1) + s, q + 1, 0, 0xFFFF);
  }

  /** Up to 131074 bytes the sum does not wrap, the code computes the complement of the
      one's complement sum, and that cancels the word sum modulo 65535. */
  lemma ChecksumIsRfc1071(data: seq<Byte>)
    requires |data| <= MAX_LENGTH
    ensures WordSum(data) < TWO_TO_THE_32
    ensures Result(data) == 0xFFFF - OnesComplementSum(data)
    ensures (Result(data) + WordSum(data)) % 0xFFFF == 0
  {
    SumFits(data);
    var sum := WordSum(data);
    assert Add32(0, sum) == sum;
    FoldTwiceIsResidue(sum);
    if sum > 0 {
      ResidueCongruent(sum);
    }
  }

  lemma {:induction false} WordsZeroIff(data: seq<Byte>, n: nat)
    requires 2 * n <= |data|
    ensures Words(data, n) == 0 <==> forall i :: 0 <= i < 2 * n ==> data[i] == 0
  {
    if n > 0 {
      WordsZeroIff(data, n - 1);
    }
  }

  /** The folded sum is zero, so the checksum is 65535, only for data that is all zero. */
  lemma AllOnesOnlyForZeros(data: seq<Byte>)
    requires |data| <= MAX_LENGTH
    ensures Result(data) == 0xFFFF <==> forall i :: 0 <= i < |data| ==> data[i] == 0
  {
    ChecksumIsRfc1071(data);
    WordsZeroIff(data, |data| / 2);
  }

  /** What is summed: 16-bit words, the low byte first, and an odd last byte by itself. */
  lemma WordSumGrows(data: seq<Byte>, lo: Byte, hi: Byte)
    requires |data| % 2 == 0
    ensures WordSum([]) == 0
    ensures WordSum(data + [lo]) == WordSum(data) + lo
    ensures WordSum(data + [lo, hi]) == WordSum(data) + lo + 0x100 * (hi as int)
  {
    var n := |data| / 2;
    SamePrefixSameWords(data, data + [lo], n);
    SamePrefixSameWords(data, data + [lo, hi], n);
    assert WordAt(data + [lo, hi], n) == lo + 0x100 * (hi as int);
    assert Words(data + [lo, hi], n + 1) == Words(data + [lo, hi], n) + WordAt(data + [lo, hi], n);
  }

  lemma {:induction false} SamePrefixSameWords(a: seq<Byte>, b: seq<Byte>, n: nat)
    requires 2 * n <= |a| <= |b| && a == b[..|a|]
    ensures Words(a, n) == Words(b, n)
  {
    if n > 0 {
      SamePrefixSameWords(a, b, n - 1);
      assert a[2 * n - 2] == b[2 * n - 2] && a[2 * n - 1] == b[2 * n - 1];
    }
  }

  /** Beyond the bound: what is complemented is the sum modulo 2^32. */
  lemma WrappedResult(data: seq<Byte>)
    ensures (Result(data) + WordSum(data) % 0x1_0000_0000) % 0xFFFF == 0
    ensures Result(data) == 0xFFFF <==> WordSum(data) % 0x1_0000_0000 == 0
  {
    var sum := WordSum(data) % 0x1_0000_0000;
    assert Add32(0, WordSum(data)) == sum;
    FoldTwiceIsResidue(sum);
    if sum > 0 {
      ResidueCongruent(sum);
    }
  }

  // ---------- the bound is tight ----------

  /** Ones in one byte more than the bound, then zeros. */
  function Overflowing(length: nat): (data: seq<Byte>)
    ensures |data| == length
  {
    seq(length, i => if i <= MAX_LENGTH then 0xFF else 0)
  }

  lemma {:induction false} WordsOfOverflowing(length: nat, n: nat)
    requires 2 * n <= length
    ensures Words(Overflowing(length), n) ==
      if n <= MAX_LENGTH / 2 then n * 0xFFFF else TWO_TO_THE_32 - 1 + 0xFF
  {
    if n > 0 {
      WordsOfOverflowing(length, n - 1);
    }
  }

  /** Of every greater length there are data whose sum wraps, so that the checksum is
      wrong. */
  lemma SumMayWrap(length: nat)
    requires length > MAX_LENGTH
    ensures var data := Overflowing(length);
      WordSum(data) >= TWO_TO_THE_32 && Result(data) != 0xFFFF - OnesComplementSum(data)
  {
    WordsOfOverflowing(length, length / 2);
    assert WordSum(Overflowing(length)) == TWO_TO_THE_32 - 1 + 0xFF;
  }

  /** The checksum is right for all data of a length exactly up to the bound. */
  lemma RightForAllIff(length: nat)
    ensures (forall data: seq<Byte> :: |data| == length ==> Result(data) == 0xFFFF - OnesComplementSum(data))
      <==> length <= MAX_LENGTH
  {
    if length <= MAX_LENGTH {
      forall data: seq<Byte> | |data| == length ensures Result(data) == 0xFFFF - OnesComplementSum(data) {
        ChecksumIsRfc1071(data);
      }
    } else {
      SumMayWrap(length);
    }
  }

  // ---------- storing the checksum ----------

  /** A packet with the given word in its checksum field, bytes 2 and 3. */
  function Store(data: seq<Byte>, word: Word): (r: seq<Byte>)
    requires |data| >= 4
    ensures |r| == |data| && WordAt(r, 1) == word
    ensures forall i :: 0 <= i < |data| && i != 2 && i != 3 ==> r[i] == data[i]
  {
    data[2 := word % 0x100][3 := word / 0x100]
  }

  lemma {:induction false} WordsAfterStore(data: seq<Byte>, word: Word, n: nat)
    requires |data| >= 4 && 2 * n <= |data| && WordAt(data, 1) == 0
    ensures Words(Store(data, word), n) == Words(data, n) + if n > 1 then word else 0
  {
    if n > 0 {
      WordsAfterStore(data, word, n - 1);
      if n != 2 {
        assert WordAt(Store(data, word), n - 1) == WordAt(data, n - 1);
      }
    }
  }

  lemma FullResidue(s: nat)
    requires s > 0 && s % 0xFFFF == 0
    ensures (s - 1) % 0xFFFF + 1 == 0xFFFF
  {
    Arithmetic.DivModUnique(s - 1, s / 0xFFFF - 1, 0xFFFE, 0xFFFF);
  }

  /** The receiver's check: with the checksum stored in its zeroed field, the checksum of
      the whole packet is 0. */
  lemma StoredChecksumVerifies(data: seq<Byte>)
    requires 4 <= |data| <= MAX_LENGTH && |data| % 2 == 0 && data[2] == data[3] == 0
    ensures Result(Store(data, Result(data))) == 0
  {
    var stored := Store(data, Result(data));
    WordsAfterStore(data, Result(data), |data| / 2);
    ChecksumIsRfc1071(data);
    ChecksumIsRfc1071(stored);
    FullResidue(WordSum(stored));
  }

  // ---------- the echo request ----------

  const PACKETSIZE := 64
  const HEADER := 8
  const ICMP_ECHO := 8

  /** The packet before its checksum is stored: type, identifier, sequence number and a
      counting payload that ends in a zero byte. */
  function EchoRequest(id: Word, count: Word): (p: seq<Byte>)
    ensures |p| == PACKETSIZE
  {
    seq(PACKETSIZE, i requires 0 <= i < PACKETSIZE =>
      if i == 0 then ICMP_ECHO
      else if i == 4 then id % 0x100
      else if i == 5 then id / 0x100
      else if i == 6 then count % 0x100
      else if i == 7 then count / 0x100
      else if HEADER <= i < PACKETSIZE - 1 then i - HEADER + '0' as int
      else 0)
  }

  method FillPacket(id: Word, count: Word, pckt: array<Byte>)
    requires pckt.Length == PACKETSIZE
    modifies pckt
    ensures pckt[..] == Store(EchoRequest(id, count), Result(EchoRequest(id, count)))
    ensures Result(pckt[..]) == 0
  {
    for i := 0 to PACKETSIZE
      invariant forall k :: 0 <= k < i ==> pckt[k] == 0
    {
      pckt[i] := 0;
    }
    pckt[0] := ICMP_ECHO;
    pckt[4], pckt[5] := id % 0x100, id / 0x100;
    for i := 0 to PACKETSIZE - HEADER - 1
      invariant forall k :: 0 <= k < HEADER && k != 6 && k != 7 ==> pckt[k] == EchoRequest(id, count)[k]
      invariant pckt[6] == pckt[7] == pckt[PACKETSIZE - 1] == 0
      invariant forall k :: HEADER <= k < HEADER + i ==> pckt[k] == EchoRequest(id, count)[k]
    {
      pckt[HEADER + i] := i + '0' as int;
    }
    pckt[PACKETSIZE - 1] := 0;
    pckt[6], pckt[7] := count % 0x100, count / 0x100;
    assert pckt[..] == EchoRequest(id, count);
    StoredChecksumVerifies(EchoRequest(id, count));
    assert pckt[..PACKETSIZE] == pckt[..];
    var sum := Checksum(pckt, PACKETSIZE);
    pckt[2], pckt[3] := sum % 0x100, sum / 0x100;
    assert pckt[..] == Store(EchoRequest(id, count), sum);
  }

  /** The filled packet: an echo request with its identifier and sequence number, a payload
      that counts up from the character 0, and a zero byte at the end. */
  lemma FilledFields(id: Word, count: Word, p: seq<Byte>)
    requires p == Store(EchoRequest(id, count), Result(EchoRequest(id, count)))
    ensures |p| == 64 && p[0] == 8 && p[1] == 0
    ensures p[4] + 0x100 * (p[5] as int) == id && p[6] + 0x100 * (p[7] as int) == count
    ensures (forall i :: 8 <= i < 63 ==> p[i] == '0' as int + (i - 8)) && p[63] == 0
  {
  }
}
