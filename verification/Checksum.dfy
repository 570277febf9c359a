/** The Internet checksum over a message, with its 32-bit accumulator and two-step fold. */
module Checksum {

  import opened Basics

  type Word = w: int | 0 <= w < 0x1_0000

  const ONES := 0xffff
  const WRAP := 0x1_0000_0000

  /** The longest message whose word sum can never reach 2^32. */
  const LONGEST := 131074

  /** A 16-bit word as a little-endian machine reads it. */
  function LittleEndian(low: Byte, high: Byte): Word { low + 256 * high }

  /** The words of a message; an odd last byte is the low half of a word. */
  function Words(b: seq<Byte>): seq<Word> {
    if |b| == 0 then []
    else if |b| == 1 then [LittleEndian(b[0], 0)]
    else [LittleEndian(b[0], b[1])] + Words(b[2..])
  }

  function Sum(ws: seq<Word>): nat {
    if ws == [] then 0 else ws[0] + Sum(ws[1..])
  }

  // ---- the reference: one's complement arithmetic ----

  /** 16-bit addition whose carry comes back in at the bottom. */
  function EndAroundAdd(x: Word, y: Word): Word {
    if x + y > ONES then x + y - ONES else x + y
  }

  function OnesSum(ws: seq<Word>): Word {
    if ws == [] then 0 else EndAroundAdd(ws[0], OnesSum(ws[1..]))
  }

  /** The checksum as RFC 1071 defines it: the complement of the one's complement sum. */
  function Rfc1071(b: seq<Byte>): Word { ONES - OnesSum(Words(b)) }

  // ---- what the code computes ----

  function Fold(sum: nat): Word
    requires sum < WRAP
  {
    var once := sum / 0x1_0000 + sum % 0x1_0000;
    (once + once / 0x1_0000) % 0x1_0000
  }

  /** The accumulator is 32 bits wide and wraps. */
  function Wrap32(sum: nat): nat { sum % WRAP }

  /** utils::checksum. */
  function Computed(b: seq<Byte>): Word { ONES - Fold(Wrap32(Sum(Words(b)))) }

  method Compute(b: seq<Byte>) returns (answer: Word)
    ensures answer == Computed(b)
    ensures |b| <= LONGEST ==> answer == Rfc1071(b)
  {
    var left, sum, w := |b|, 0, 0;
    assert b[0..] == b;
    while left > 1
      invariant 0 <= left && w + left == |b| && 0 <= sum < WRAP
      invariant Wrap32(sum + Sum(Words(b[w..]))) == Wrap32(Sum(Words(b)))
      decreases left
    {
      WordsStep(b, w);
      WrapEarly(sum + LittleEndian(b[w], b[w + 1]), Sum(Words(b[w + 2..])));
      sum := Wrap32(sum + LittleEndian(b[w], b[w + 1]));
      w, left := w + 2, left - 2;
    }
    LastWord(b, w);
    WrapFits(sum);
    if left == 1 {
      sum := Wrap32(sum + b[w]);
    }
    assert sum == Wrap32(Sum(Words(b)));
    answer := FoldCarries(sum);
    if |b| <= LONGEST {
      ShortIsExact(b);
    }
  }

  method FoldCarries(sum: nat) returns (answer: Word)
    requires sum < WRAP
    ensures answer == ONES - Fold(sum)
  {
    var folded := sum / 0x1_0000 + sum % 0x1_0000;
    folded := folded + folded / 0x1_0000;
    answer := ONES - folded % 0x1_0000;
  }

  lemma LastWord(b: seq<Byte>, w: nat)
    requires w <= |b| <= w + 1
    ensures Sum(Words(b[w..])) == if w < |b| then b[w] else 0
  {
    if w < |b| {
      assert Words(b[w..]) == [LittleEndian(b[w], 0)];
    }
  }

  lemma WrapEarly(x: nat, y: nat)
    ensures Wrap32(Wrap32(x) + y) == Wrap32(x + y)
  {
  }

  lemma WordsStep(b: seq<Byte>, w: nat)
    requires w + 1 < |b|
    ensures Sum(Words(b[w..])) == LittleEndian(b[w], b[w + 1]) + Sum(Words(b[w + 2..]))
  {
    assert b[w..][2..] == b[w + 2..];
  }

  // ---- when the two agree ----

  /** `r` is the 16-bit one's complement value of the number t: zero only for zero. */
  predicate Represents(r: int, t: int) {
    0 <= r <= ONES && (r == 0 <==> t == 0) && (t - r) % ONES == 0
  }

  lemma RepresentedOnce(r: int, s: int, t: int)
    requires Represents(r, t) && Represents(s, t)
    ensures r == s
  {
  }

  lemma {:induction false} OnesSumRepresents(ws: seq<Word>)
    ensures Represents(OnesSum(ws), Sum(ws))
  {
    if ws != [] {
      OnesSumRepresents(ws[1..]);
    }
  }

  lemma FoldRepresents(t: nat)
    requires t < WRAP
    ensures Represents(Fold(t), t)
  {
    var high, low := t / 0x1_0000, t % 0x1_0000;
    assert t == ONES * high + (high + low);
    var once := high + low;
    assert Represents(Fold(t), once);
  }

  lemma {:induction false} SumBound(b: seq<Byte>)
    ensures 2 * Sum(Words(b)) <= ONES * |b| + (if |b| % 2 == 1 then 510 - ONES else 0)
  {
    if |b| > 1 {
      SumBound(b[2..]);
    }
  }

  lemma ShortFits(b: seq<Byte>)
    requires |b| <= LONGEST
    ensures Sum(Words(b)) < WRAP
  {
    SumBound(b);
  }

  lemma WrapFits(t: nat)
    requires t < WRAP
    ensures Wrap32(t) == t
  {
  }

  /** Within the length limit the complement of what is computed represents the sum. */
  lemma ComputedRepresents(b: seq<Byte>)
    requires |b| <= LONGEST
    ensures Represents(ONES - Computed(b), Sum(Words(b)))
  {
    ShortFits(b);
    WrapFits(Sum(Words(b)));
    FoldRepresents(Sum(Words(b)));
  }

  lemma RepresentedBy(b: seq<Byte>) returns (r: Word)
    requires |b| <= LONGEST
    ensures Computed(b) == ONES - r && Represents(r, Sum(Words(b)))
  {
    ComputedRepresents(b);
    r := ONES - Computed(b);
  }

  lemma ShortIsExact(b: seq<Byte>)
    requires |b| <= LONGEST
    ensures Computed(b) == Rfc1071(b)
  {
    ComputedRepresents(b);
    OnesSumRepresents(Words(b));
    RepresentedOnce(ONES - Computed(b), OnesSum(Words(b)), Sum(Words(b)));
  }

  /** 65537 words of all ones fill the accumulator exactly; one more byte wraps it to zero. */
  function Spoiler(n: nat): seq<Byte> {
    seq(n, i => if i < LONGEST then 255 else if i == LONGEST then 1 else 0)
  }

  lemma {:induction false} SpoilerTail(n: nat, k: nat)
    requires LONGEST < n && k <= n && (k % 2 == 0 || k == n)
    ensures Sum(Words(Spoiler(n)[k..])) == (if k <= LONGEST then ONES * ((LONGEST - k) / 2) + 1 else 0)
    decreases n - k
  {
    if k < n {
      var rest := Spoiler(n)[k..];
      if k + 1 < n {
        WordsStep(Spoiler(n), k);
        SpoilerTail(n, k + 2);
      } else {
        assert Words(rest) == [LittleEndian(rest[0], 0)];
      }
    }
  }

  /** The length limit is exact: the code computes the RFC 1071 checksum of every message of n bytes
      if and only if n is at most 131074. */
  lemma ExactIff(n: nat)
    ensures (forall b: seq<Byte> :: |b| == n ==> Computed(b) == Rfc1071(b)) <==> n <= LONGEST
  {
    forall b: seq<Byte> | |b| == n && n <= LONGEST ensures Computed(b) == Rfc1071(b) {
      ShortIsExact(b);
    }
    if n > LONGEST {
      var b := Spoiler(n);
      SpoilerTail(n, 0);
      assert b[0..] == b;
      assert Sum(Words(b)) == WRAP;
      OnesSumRepresents(Words(b));
      assert Computed(b) == ONES != Rfc1071(b);
    }
  }

  // ---- the order and the byte order of the words do not matter ----

  lemma {:induction false} SumRemove(ws: seq<Word>, i: nat)
    requires i < |ws|
    ensures Sum(ws) == ws[i] + Sum(ws[..i] + ws[i + 1..])
  {
    var rest := ws[..i] + ws[i + 1..];
    if i == 0 {
      assert rest == ws[1..];
    } else {
      SumRemove(ws[1..], i - 1);
      assert rest[0] == ws[0] && rest[1..] == ws[1..][..i - 1] + ws[1..][i..];
    }
  }

  lemma Without(ws: seq<Word>, i: nat)
    requires i < |ws|
    ensures multiset(ws[..i] + ws[i + 1..]) == multiset(ws) - multiset([ws[i]])
  {
    assert ws == ws[..i] + [ws[i]] + ws[i + 1..];
  }

  lemma {:induction false} SumIgnoresOrder(a: seq<Word>, b: seq<Word>)
    requires multiset(a) == multiset(b)
    ensures Sum(a) == Sum(b)
  {
    if a == [] {
      assert |multiset(b)| == 0;
    } else {
      assert a[0] in multiset(b);
      var i :| 0 <= i < |b| && b[i] == a[0];
      var rest := b[..i] + b[i + 1..];
      assert multiset(a[1..]) == multiset(rest) by {
        Without(a, 0);
        Without(b, i);
        assert a[..0] + a[1..] == a[1..];
      }
      SumIgnoresOrder(a[1..], rest);
      SumRemove(b, i);
    }
  }

  /** Any reordering of the words leaves the checksum alone, at every length. */
  lemma OrderDoesNotMatter(a: seq<Byte>, b: seq<Byte>)
    requires multiset(Words(a)) == multiset(Words(b))
    ensures Computed(a) == Computed(b)
  {
    SumIgnoresOrder(Words(a), Words(b));
  }

  function SwapWord(w: Word): Word { LittleEndian(w / 256, w % 256) }

  /** The two bytes of every word exchanged. */
  function Swapped(b: seq<Byte>): seq<Byte>
    requires |b| % 2 == 0
  {
    if b == [] then [] else [b[1], b[0]] + Swapped(b[2..])
  }

  /** u is 256 times t, up to multiples of 65535. */
  predicate Shifted(u: int, t: int) { (u - 256 * t) % ONES == 0 }

  lemma ShiftedAdds(u: int, t: int, v: int, w: int)
    requires Shifted(u, t) && Shifted(v, w)
    ensures Shifted(u + v, t + w)
  {
  }

  lemma SwappedWord(x: Byte, y: Byte)
    ensures Shifted(LittleEndian(y, x), LittleEndian(x, y))
  {
    var w: int, v: int := LittleEndian(x, y), LittleEndian(y, x);
    assert v - 256 * w == -ONES * y;
  }

  lemma {:induction false} SwappedSum(b: seq<Byte>)
    requires |b| % 2 == 0
    ensures |Swapped(b)| == |b|
    ensures Shifted(Sum(Words(Swapped(b))), Sum(Words(b)))
    ensures Sum(Words(Swapped(b))) == 0 <==> Sum(Words(b)) == 0
  {
    if b != [] {
      SwappedSum(b[2..]);
      assert Swapped(b)[2..] == Swapped(b[2..]);
      SwappedWord(b[0], b[1]);
      ShiftedAdds(LittleEndian(b[1], b[0]), LittleEndian(b[0], b[1]), Sum(Words(Swapped(b[2..]))), Sum(Words(b[2..])));
    }
  }

  lemma SwapRepresents(r: Word, t: nat, u: nat)
    requires Represents(r, t) && Shifted(u, t) && (u == 0 <==> t == 0)
    ensures Represents(SwapWord(r), u)
  {
    var s: int, d: int := SwapWord(r), r;
    assert s - 256 * d == -ONES * (r / 256);
  }

  lemma SwapComplement(w: Word)
    ensures SwapWord(ONES - w) == ONES - SwapWord(w)
  {
  }

  lemma SwapUnique(r: Word, s: Word, t: nat, u: nat)
    requires Represents(r, t) && Represents(s, u) && Shifted(u, t) && (u == 0 <==> t == 0)
    ensures ONES - s == SwapWord(ONES - r)
  {
    SwapRepresents(r, t, u);
    RepresentedOnce(SwapWord(r), s, u);
    SwapComplement(r);
  }

  /** Byte order independence: a machine of the other byte order stores the same checksum bytes. */
  lemma SwappingCommutes(b: seq<Byte>)
    requires |b| % 2 == 0 && |b| <= LONGEST
    ensures Computed(Swapped(b)) == SwapWord(Computed(b))
  {
    SwappedSum(b);
    var r := RepresentedBy(b);
    var s := RepresentedBy(Swapped(b));
    SwapUnique(r, s, Sum(Words(b)), Sum(Words(Swapped(b))));
  }

  // ---- what IcmpSender::send_to puts on the wire ----

  /** The message with w in its checksum field, bytes 2 and 3. */
  function WithField(b: seq<Byte>, w: Word): (m: seq<Byte>)
    requires |b| >= 4
    ensures |m| == |b|
  {
    b[2 := w % 256][3 := w / 256]
  }

  lemma FieldAddsUp(b: seq<Byte>, w: Word)
    requires |b| >= 4
    ensures Sum(Words(WithField(b, w))) == Sum(Words(WithField(b, 0))) + w
  {
    var m, z := WithField(b, w), WithField(b, 0);
    assert m[0..] == m && z[0..] == z;
    WordsStep(m, 0);
    WordsStep(m, 2);
    WordsStep(z, 0);
    WordsStep(z, 2);
    assert m[4..] == z[4..];
  }

  predicate PositiveMultiple(t: int) { t > 0 && t % ONES == 0 }

  lemma AllOnesIff(r: int, t: int)
    requires Represents(r, t) && t >= 0
    ensures r == ONES <==> PositiveMultiple(t)
  {
  }

  /** A message verifies when recomputing the checksum over all of it gives 0, which is when its sum is
      a positive multiple of 65535. */
  lemma VerifiesIff(m: seq<Byte>)
    requires |m| <= LONGEST
    ensures Computed(m) == 0 <==> PositiveMultiple(Sum(Words(m)))
  {
    var r := RepresentedBy(m);
    AllOnesIff(r, Sum(Words(m)));
  }

  lemma CompletesIff(r: Word, t: nat, w: Word)
    requires Represents(r, t)
    ensures PositiveMultiple(t + w) <==> w == ONES - r || (w == ONES && r == ONES)
  {
    assert (t + w) % ONES == 0 <==> (r + w) % ONES == 0;
  }

  /** Which values of the checksum field verify: exactly the one computed with the field zeroed, and
      for 0 also its other representation. */
  lemma FieldVerifiesIff(b: seq<Byte>, w: Word)
    requires 4 <= |b| <= LONGEST
    ensures var c := Computed(WithField(b, 0));
      Computed(WithField(b, w)) == 0 <==> w == c || (w == ONES && c == 0)
  {
    var z := WithField(b, 0);
    FieldAddsUp(b, w);
    VerifiesIff(WithField(b, w));
    var r := RepresentedBy(z);
    CompletesIff(r, Sum(Words(z)), w);
  }

  lemma {:induction false} SumUpdate(ws: seq<Word>, i: nat, v: Word)
    requires i < |ws|
    ensures Sum(ws[i := v]) == Sum(ws) - ws[i] + v
    ensures ws[i] <= Sum(ws)
  {
    if i > 0 {
      SumUpdate(ws[1..], i - 1, v);
      assert ws[i := v][1..] == ws[1..][i - 1 := v];
    } else {
      assert ws[i := v][1..] == ws[1..];
    }
  }

  lemma MultipleAfterChange(t: int, w: Word, v: Word)
    requires PositiveMultiple(t) && w <= t
    ensures PositiveMultiple(t - w + v) <==> w == v || (w == 0 && v == ONES) || (w == ONES && v == 0 && t > ONES)
  {
    var d: int := v as int - w as int;
    assert (t + d) % ONES == 0 <==> d % ONES == 0;
  }

  /** Damage to one word of a message that verifies goes unnoticed only between the two zeros of one's
      complement, and not even then if nothing but zeros is left. */
  lemma DamageIsSeenIff(m: seq<Byte>, d: seq<Byte>, i: nat, v: Word)
    requires |m| <= LONGEST && |d| <= LONGEST && Computed(m) == 0
    requires i < |Words(m)| && Words(d) == Words(m)[i := v]
    ensures var w := Words(m)[i];
      Computed(d) == 0 <==> w == v || (w == 0 && v == ONES) || (w == ONES && v == 0 && Sum(Words(m)) > ONES)
  {
    VerifiesIff(m);
    VerifiesIff(d);
    SumUpdate(Words(m), i, v);
    MultipleAfterChange(Sum(Words(m)), Words(m)[i], v);
  }

  /** The value IcmpSender::send_to leaves in the checksum field. */
  function Sent(b: seq<Byte>): Word
    requires |b| >= 4
  {
    var c := Computed(WithField(b, 0));
    if c == 0 then ONES else c
  }

  lemma SentVerifies(b: seq<Byte>)
    requires 4 <= |b| <= LONGEST
    ensures Sent(b) != 0 && Computed(WithField(b, Sent(b))) == 0
  {
    FieldVerifiesIff(b, Sent(b));
  }

  /** The checksum part of IcmpSender: the send buffer and the kind of socket. */
  class IcmpSender {
    const ipv6: bool
    const rawSocket: bool
    var message: array<Byte>

    constructor (ipv6: bool, rawSocket: bool, size: nat)
      requires size >= 8
      ensures this.ipv6 == ipv6 && this.rawSocket == rawSocket
      ensures fresh(message) && message.Length == size
    {
      this.ipv6, this.rawSocket := ipv6, rawSocket;
      message := new Byte[size];
    }

    method SetField(w: Word)
      requires message.Length >= 4
      modifies message
      ensures message[..] == WithField(old(message[..]), w)
    {
      message[2], message[3] := w % 256, w / 256;
    }

    /** The kernel fills the field of an IPv6 datagram socket; otherwise the finished message carries a
        non-zero checksum and verifies. */
    method FillChecksum()
      requires message.Length >= 8
      modifies message
      ensures message[..] == WithField(old(message[..]), if ipv6 && !rawSocket then 0 else Sent(old(message[..])))
      ensures (!ipv6 || rawSocket) && message.Length <= LONGEST ==> Computed(message[..]) == 0
    {
      ghost var was := message[..];
      SetField(0);
      if !ipv6 || rawSocket {
        var w := Compute(message[..]);
        SetField(w);
        assert message[..] == WithField(was, w);
        if w == 0 {
          SetField(ONES);
        }
        assert message[..] == WithField(was, Sent(was));
        if message.Length <= LONGEST {
          SentVerifies(was);
        }
      }
    }
  }
}
