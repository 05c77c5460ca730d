/** The IPv4 header checksum as the packet forwarder computes and checks it, against the one's
    complement sum of section 1 of RFC 1071 and the header checksum of section 3.1 of RFC 791.
    A header is the first twenty bytes, whatever its own length field says. */
module Ipv4Checksum {

  import opened Arithmetic
  import opened Environment

  const HEADER_LEN := 20
  const CHECKSUM_AT := 10
  const MAX16 := 0xFFFF

  type u16 = x: int | 0 <= x <= 0xFFFF

  /** Big-endian. */
  function Word(high: byte, low: byte): u16 {
    0x100 * high + low
  }

  function Bytes(w: u16): (b: seq<byte>)
    ensures |b| == 2 && Word(b[0], b[1]) == w
  {
    [w / 0x100, w % 0x100]
  }

  /** The plain sum of the first `n` 16-bit words. */
  function SumTo(h: seq<byte>, n: nat): (s: nat)
    requires 2 * n <= |h|
    ensures s <= MAX16 * n
  {
    if n == 0 then 0 else SumTo(h, n - 1) + Word(h[2 * n - 2], h[2 * n - 1])
  }

  const WORDS := HEADER_LEN / 2

  function WordSum(h: seq<byte>): (s: nat)
    requires |h| == HEADER_LEN
  {
    SumTo(h, WORDS)
  }

  /** One's complement addition: the carry comes back in at the right. */
  function OnesAdd(a: u16, b: u16): u16 {
    if a + b > MAX16 then a + b - MAX16 else a + b
  }

  /** RFC 1071's one's complement sum, word by word. */
  function OnesSumTo(h: seq<byte>, n: nat): u16
    requires 2 * n <= |h|
  {
    if n == 0 then 0 else OnesAdd(OnesSumTo(h, n - 1), Word(h[2 * n - 2], h[2 * n - 1]))
  }

  /** The canonical 16-bit residue: only zero folds to zero. */
  function Fold(s: nat): u16 {
    if s == 0 then 0 else (s - 1) % MAX16 + 1
  }

  lemma FoldUnique(s: nat, q: nat, r: u16)
    requires s == MAX16 * q + r && (r == 0 ==> s == 0)
    ensures Fold(s) == r
  {
    if s > 0 {
      assert s - 1 == MAX16 * q + (r - 1);
    }
  }

  lemma FoldDivides(s: nat) returns (q: nat)
    ensures s == MAX16 * q + Fold(s) && (Fold(s) == 0 <==> s == 0)
  {
    q := if s == 0 then 0 else (s - 1) / MAX16;
  }

  /** Adding with end-around carry is adding and folding. */
  lemma OnesAddFolds(s: nat, w: u16)
    ensures OnesAdd(Fold(s), w) == Fold(s + w)
  {
    var q := FoldDivides(s);
    if Fold(s) + w > MAX16 {
      FoldUnique(s + w, q + 1, Fold(s) + w - MAX16);
    } else {
      FoldUnique(s + w, q, Fold(s) + w);
    }
  }

  /** The deferred-carry sum is RFC 1071's sum. */
  lemma {:induction false} FoldedSumIsOnesSum(h: seq<byte>, n: nat)
    requires 2 * n <= |h|
    ensures Fold(SumTo(h, n)) == OnesSumTo(h, n)
  {
    if n == 0 {
    } else {
      FoldedSumIsOnesSum(h, n - 1);
      OnesAddFolds(SumTo(h, n - 1), Word(h[2 * n - 2], h[2 * n - 1]));
    }
  }

  /** One carry fold keeps the residue. */
  lemma CarryKeepsFold(s: nat)
    ensures Fold(s % 0x1_0000 + s / 0x1_0000) == Fold(s)
    ensures s >= 0x1_0000 ==> s % 0x1_0000 + s / 0x1_0000 < s
  {
    var high, low := s / 0x1_0000, s % 0x1_0000;
    var q := FoldDivides(low + high);
    FoldUnique(s, q + high, Fold(low + high));
  }

  function Checksum(h: seq<byte>): u16
    requires |h| == HEADER_LEN
  {
    MAX16 - Fold(WordSum(h))
  }

  function Zeroed(h: seq<byte>): seq<byte>
    requires |h| == HEADER_LEN
  {
    h[CHECKSUM_AT := 0][CHECKSUM_AT + 1 := 0]
  }

  function Stored(h: seq<byte>): u16
    requires |h| == HEADER_LEN
  {
    Word(h[CHECKSUM_AT], h[CHECKSUM_AT + 1])
  }

  function WithChecksum(h: seq<byte>, c: u16): (r: seq<byte>)
    requires |h| == HEADER_LEN
    ensures |r| == |h| && Stored(r) == c
  {
    WithWord(h, CHECKSUM_AT, c)
  }

  /** What the check accepts. */
  predicate Accepts(h: seq<byte>)
    requires |h| == HEADER_LEN
  {
    Stored(h) == Checksum(Zeroed(h))
  }

  /** Changing one byte changes the sum by as much, times its place value. */
  lemma {:induction false} ByteChangesSum(h: seq<byte>, i: nat, b: byte, n: nat)
    requires 2 * n <= |h| && i < |h|
    ensures SumTo(h[i := b], n)
      == SumTo(h, n) + if i >= 2 * n then 0 else (b - h[i]) * if i % 2 == 0 then 0x100 else 1
  {
    if n == 0 {
    } else {
      ByteChangesSum(h, i, b, n - 1);
    }
  }

  lemma SumSplitsAtChecksum(h: seq<byte>)
    requires |h| == HEADER_LEN
    ensures WordSum(h) == WordSum(Zeroed(h)) + Stored(h)
  {
    ByteChangesSum(h, CHECKSUM_AT, 0, WORDS);
    ByteChangesSum(h[CHECKSUM_AT := 0], CHECKSUM_AT + 1, 0, WORDS);
  }

  /** Storing the checksum makes the header acceptable. */
  lemma StoringIsAccepted(h: seq<byte>)
    requires |h| == HEADER_LEN
    ensures Accepts(WithChecksum(h, Checksum(Zeroed(h))))
  {
    assert Zeroed(WithChecksum(h, Checksum(Zeroed(h)))) == Zeroed(h);
  }

  lemma ComplementOfRest(rest: nat, stored: u16)
    ensures stored == MAX16 - Fold(rest)
      <==> Fold(rest + stored) == MAX16 && (stored == MAX16 ==> rest == 0)
  {
    OnesAddFolds(rest, stored);
    var q := FoldDivides(rest);
  }

  /** The check is that of RFC 791, with one exception: a stored 0xFFFF is accepted only where the
      rest of the header is zero. */
  lemma AcceptsIsRfcCheck(h: seq<byte>)
    requires |h| == HEADER_LEN
    ensures Accepts(h) <==>
      OnesSumTo(h, WORDS) == MAX16 && (Stored(h) == MAX16 ==> WordSum(Zeroed(h)) == 0)
  {
    var rest, stored := WordSum(Zeroed(h)), Stored(h);
    assert OnesSumTo(h, WORDS) == Fold(rest + stored) by {
      FoldedSumIsOnesSum(h, WORDS);
      SumSplitsAtChecksum(h);
    }
    ComplementOfRest(rest, stored);
  }

  lemma {:induction false} ZeroSum(h: seq<byte>, n: nat)
    requires 2 * n <= |h| && forall i :: 0 <= i < |h| ==> h[i] == 0
    ensures SumTo(h, n) == 0
  {
    if n == 0 {
    } else {
      ZeroSum(h, n - 1);
    }
  }

  /** The exception is real: a header RFC 791 calls correct and this check does not. */
  lemma NegativeZeroIsRefused()
    ensures
      var h := WithChecksum(Zeros(HEADER_LEN)[0 := 0xFF][1 := 0xFF], MAX16);
      OnesSumTo(h, WORDS) == MAX16 && !Accepts(h)
  {
    var rest := Zeros(HEADER_LEN)[0 := 0xFF][1 := 0xFF];
    ZeroSum(Zeros(HEADER_LEN), WORDS);
    ByteChangesSum(Zeros(HEADER_LEN), 0, 0xFF, WORDS);
    ByteChangesSum(Zeros(HEADER_LEN)[0 := 0xFF], 1, 0xFF, WORDS);
    var h := WithChecksum(rest, MAX16);
    assert Zeroed(h) == rest;
    SumSplitsAtChecksum(h);
    FoldedSumIsOnesSum(h, WORDS);
  }

  /** Two sums fold alike exactly if they are equal or both positive and congruent. */
  lemma FoldsAlike(s: nat, d: nat)
    requires 0 < d <= MAX16
    ensures Fold(s) == Fold(s + d) <==> s > 0 && d == MAX16
  {
    var q := FoldDivides(s);
    var q' := FoldDivides(s + d);
    if Fold(s) == Fold(s + d) {
      assert d == MAX16 * (q' - q);
    } else if s > 0 && d == MAX16 {
      FoldUnique(s + d, q + 1, Fold(s));
    }
  }

  function WithWord(h: seq<byte>, i: nat, w: u16): (r: seq<byte>)
    requires i + 1 < |h|
    ensures |r| == |h|
  {
    var high: byte, low: byte := Bytes(w)[0], Bytes(w)[1];
    h[i := high][i + 1 := low]
  }

  lemma PairChangesSum(h: seq<byte>, i: nat, high: byte, low: byte)
    requires |h| == HEADER_LEN && i % 2 == 0 && i + 1 < |h|
    ensures WordSum(h[i := high][i + 1 := low])
      == WordSum(h) + Word(high, low) - Word(h[i], h[i + 1])
  {
    ByteChangesSum(h, i, high, WORDS);
    ByteChangesSum(h[i := high], i + 1, low, WORDS);
  }

  lemma WordChangesSum(h: seq<byte>, i: nat, w: u16)
    requires |h| == HEADER_LEN && i % 2 == 0 && i + 1 < |h|
    ensures WordSum(WithWord(h, i, w)) == WordSum(h) + w - Word(h[i], h[i + 1])
  {
    PairChangesSum(h, i, Bytes(w)[0], Bytes(w)[1]);
  }

  /** A word elsewhere leaves the checksum field alone. */
  lemma OtherWordsStay(h: seq<byte>, i: nat, w: u16)
    requires |h| == HEADER_LEN && i % 2 == 0 && i + 1 < |h| && i != CHECKSUM_AT
    ensures Stored(WithWord(h, i, w)) == Stored(h)
    ensures Zeroed(WithWord(h, i, w)) == WithWord(Zeroed(h), i, w)
    ensures Zeroed(h)[i] == h[i] && Zeroed(h)[i + 1] == h[i + 1]
  {
  }

  /** With the same checksum stored, the sums of the rest decide. */
  lemma SameStoredSameFold(h: seq<byte>, h': seq<byte>)
    requires |h| == |h'| == HEADER_LEN && Accepts(h) && Stored(h) == Stored(h')
    ensures Accepts(h') <==> Fold(WordSum(Zeroed(h))) == Fold(WordSum(Zeroed(h')))
  {
  }

  /** Which changes of one 16-bit word go unnoticed: exactly those outside the checksum field that
      exchange the two representations of zero while another word is not zero. */
  lemma WordErrorUnnoticed(h: seq<byte>, i: nat, w: u16)
    requires |h| == HEADER_LEN && Accepts(h)
    requires i < HEADER_LEN && i % 2 == 0 && w != Word(h[i], h[i + 1])
    ensures
      var was := Word(h[i], h[i + 1]);
      var exchanged := (was == 0 && w == MAX16) || (was == MAX16 && w == 0);
      Accepts(WithWord(h, i, w)) <==>
        i != CHECKSUM_AT && exchanged && WordSum(Zeroed(h)) > was
  {
    if i == CHECKSUM_AT {
      ChecksumErrorNoticed(h, w);
    } else {
      OtherWordError(h, i, w);
    }
  }

  lemma ChecksumErrorNoticed(h: seq<byte>, w: u16)
    requires |h| == HEADER_LEN && Accepts(h) && w != Stored(h)
    ensures !Accepts(WithWord(h, CHECKSUM_AT, w))
  {
    assert Zeroed(WithChecksum(h, w)) == Zeroed(h) && Stored(WithChecksum(h, w)) == w;
  }

  lemma OtherWordError(h: seq<byte>, i: nat, w: u16)
    requires |h| == HEADER_LEN && Accepts(h) && i != CHECKSUM_AT
    requires i < HEADER_LEN && i % 2 == 0 && w != Word(h[i], h[i + 1])
    ensures
      var was := Word(h[i], h[i + 1]);
      var exchanged := (was == 0 && w == MAX16) || (was == MAX16 && w == 0);
      Accepts(WithWord(h, i, w)) <==> exchanged && WordSum(Zeroed(h)) > was
  {
    OtherWordsStay(h, i, w);
    WordChangesSum(Zeroed(h), i, w);
    WordChangesSum(Zeroed(h), i, 0);
    SameStoredSameFold(h, WithWord(h, i, w));
    ChangeUnnoticed(WordSum(Zeroed(h)), Word(h[i], h[i + 1]), w);
  }

  /** The same of the sum: one of its words becomes another. */
  lemma ChangeUnnoticed(s: nat, was: u16, w: u16)
    requires was <= s && was != w
    ensures Fold(s) == Fold(s - was + w) <==>
      ((was == 0 && w == MAX16) || (was == MAX16 && w == 0)) && s > was
  {
    if w > was {
      FoldsAlike(s, w - was);
    } else {
      FoldsAlike(s - was + w, was - w);
    }
  }

  /** No error within a single byte goes unnoticed, wherever it is. */
  lemma ByteErrorDetected(h: seq<byte>, i: nat, b: byte)
    requires |h| == HEADER_LEN && Accepts(h) && i < HEADER_LEN && b != h[i]
    ensures !Accepts(h[i := b])
  {
    var h' := h[i := b];
    if i == CHECKSUM_AT || i == CHECKSUM_AT + 1 {
      assert Zeroed(h') == Zeroed(h);
    } else {
      assert Zeroed(h') == Zeroed(h)[i := b];
      ByteChangesSum(Zeroed(h), i, b, WORDS);
      var s, s' := WordSum(Zeroed(h)), WordSum(Zeroed(h'));
      if b > h[i] {
        FoldsAlike(s, s' - s);
      } else {
        FoldsAlike(s', s - s');
      }
    }
  }

  function Place(k: nat): (p: nat)
    requires k < 8
    ensures 1 <= p <= 128
  {
    [1, 2, 4, 8, 16, 32, 64, 128][k]
  }

  /** The byte with bit `k` inverted. */
  function Flip(b: byte, k: nat): (f: byte)
    requires k < 8
    ensures f == b + Place(k) || f == b - Place(k)
  {
    if b / Place(k) % 2 == 0 then FlipFits(b, k); b + Place(k) else FlipFits(b, k); b - Place(k)
  }

  lemma FlipFits(b: byte, k: nat)
    requires k < 8
    ensures b / Place(k) % 2 == 0 ==> b + Place(k) < 0x100
    ensures b / Place(k) % 2 != 0 ==> b >= Place(k)
  {
    match k {
      case 0 =>
      case 1 =>
      case 2 =>
      case 3 =>
      case 4 =>
      case 5 =>
      case 6 =>
      case 7 =>
    }
  }

  /** Adding or taking away one place turns an even quotient odd and back. */
  lemma ToggledTwice(b: int, f: int, p: int, q: int, q': int)
    requires f == (if q % 2 == 0 then b + p else b - p)
    requires q' == (if q % 2 == 0 then q + 1 else q - 1)
    ensures (if q' % 2 == 0 then f + p else f - p) == b
  {
  }

  /** Inverting a bit again restores the byte. */
  lemma FlipTwice(b: byte, k: nat)
    requires k < 8
    ensures Flip(Flip(b, k), k) == b
  {
    var p, f := Place(k), Flip(b, k);
    OneMore(b, p);
    OneMore(b - p, p);
    ToggledTwice(b, f, p, b / p, f / p);
  }

  /** No single inverted bit goes unnoticed. */
  lemma BitFlipDetected(h: seq<byte>, i: nat, k: nat)
    requires |h| == HEADER_LEN && Accepts(h) && i < HEADER_LEN && k < 8
    ensures !Accepts(h[i := Flip(h[i], k)])
  {
    ByteErrorDetected(h, i, Flip(h[i], k));
  }

  /** `packet` with the header at `at` replaced. */
  function Patched(packet: seq<byte>, at: nat, header: seq<byte>): (p: seq<byte>)
    requires at + HEADER_LEN <= |packet| && |header| == HEADER_LEN
    ensures |p| == |packet| && p[at..at + HEADER_LEN] == header
    ensures header == packet[at..at + HEADER_LEN] ==> p == packet
  {
    packet[..at] + header + packet[at + HEADER_LEN..]
  }

  lemma PatchedTwice(packet: seq<byte>, at: nat, header: seq<byte>, again: seq<byte>)
    requires at + HEADER_LEN <= |packet| && |header| == |again| == HEADER_LEN
    ensures Patched(Patched(packet, at, header), at, again) == Patched(packet, at, again)
  {
  }

  /** Folds the carries back in until none is left. */
  method FoldCarries(s: u32) returns (r: u16)
    ensures r == Fold(s)
  {
    var sum := s;
    while sum / 0x1_0000 > 0
      invariant Fold(sum) == Fold(s)
      decreases sum
    {
      CarryKeepsFold(sum);
      sum := sum % 0x1_0000 + sum / 0x1_0000;
    }
    FoldUnique(sum, 0, sum);
    return sum;
  }

  /** The checksum of the header at `at`, or None if there are not twenty bytes. Neither the sum
      nor a carry fold leaves 32 bits, and the fold loop ends. */
  method CalculateIpv4Checksum(packet: array<byte>, at: nat) returns (checksum: Option<u16>)
    requires at <= packet.Length
    ensures checksum == if packet.Length - at < HEADER_LEN then None
      else Some(Checksum(packet[at..at + HEADER_LEN]))
  {
    if packet.Length - at < HEADER_LEN {
      return None;
    }
    ghost var header := packet[at..at + HEADER_LEN];
    var sum: u32 := 0;
    var i := 0;
    while i < HEADER_LEN
      invariant 0 <= i <= HEADER_LEN && i % 2 == 0
      invariant sum == SumTo(header, i / 2)
    {
      sum := sum + Word(packet[at + i], packet[at + i + 1]);
      i := i + 2;
    }
    var folded := FoldCarries(sum);
    return Some(MAX16 - folded);
  }

  method SetChecksum(packet: array<byte>, at: nat, c: u16)
    requires at + HEADER_LEN <= packet.Length
    modifies packet
    ensures packet[..] ==
      Patched(old(packet[..]), at, WithChecksum(old(packet[at..at + HEADER_LEN]), c))
  {
    packet[at + CHECKSUM_AT] := Bytes(c)[0];
    packet[at + CHECKSUM_AT + 1] := Bytes(c)[1];
  }

  lemma ChecksumRoundTrip(h: seq<byte>)
    requires |h| == HEADER_LEN
    ensures WithChecksum(Zeroed(h), Stored(h)) == h
    ensures WithChecksum(h, 0) == Zeroed(h)
  {
    BytesOfWord(h[CHECKSUM_AT], h[CHECKSUM_AT + 1]);
    BytesOfWord(0, 0);
    assert WithChecksum(Zeroed(h), Stored(h)) == h;
    assert WithChecksum(h, 0) == Zeroed(h);
  }

  lemma BytesOfWord(high: byte, low: byte)
    ensures Bytes(Word(high, low)) == [high, low]
  {
    QuotientIs(Word(high, low), 0x100, high);
  }

  /** The check clears the field to recompute; it puts the value back only if it was right. */
  method IsChecksumCorrect(packet: array<byte>, at: nat) returns (correct: bool)
    requires at + HEADER_LEN <= packet.Length
    modifies packet
    ensures correct == Accepts(old(packet[at..at + HEADER_LEN]))
    ensures correct ==> packet[..] == old(packet[..])
    ensures !correct ==>
      packet[..] == Patched(old(packet[..]), at, Zeroed(old(packet[at..at + HEADER_LEN])))
  {
    ghost var was, header := packet[..], packet[at..at + HEADER_LEN];
    var current := Word(packet[at + CHECKSUM_AT], packet[at + CHECKSUM_AT + 1]);
    ChecksumRoundTrip(header);
    SetChecksum(packet, at, 0);
    ghost var cleared := packet[..];
    assert cleared[at..at + HEADER_LEN] == packet[at..at + HEADER_LEN] == Zeroed(header);
    var checksum := CalculateIpv4Checksum(packet, at);
    if current != checksum.value {
      return false;
    }
    SetChecksum(packet, at, checksum.value);
    PatchedTwice(was, at, Zeroed(header), header);
    return true;
  }
}
