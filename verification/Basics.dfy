/** What several models share. */
module Basics {

  datatype Option<T> = None | Some(value: T)

  type Byte = b: int | 0 <= b < 256
}

/** Numbers as little-endian bytes. */
module LittleEndian {
  import opened Arith
  import opened Basics

  function Little(n: nat, k: nat): (s: seq<Byte>)
    ensures |s| == k
  {
    if k == 0 then [] else [n % 256] + Little(n / 256, k - 1)
  }

  function FromLittle(s: seq<Byte>): nat {
    if s == [] then 0 else s[0] + 256 * FromLittle(s[1..])
  }

  /** 256^k for the widths in use. */
  function Power(k: nat): nat
    requires k <= 8
  {
    if k == 0 then 1 else if k == 1 then 0x100 else if k == 2 then 0x1_0000 else if k == 3 then 0x100_0000
    else if k == 4 then 0x1_0000_0000 else if k == 5 then 0x100_0000_0000 else if k == 6 then 0x1_0000_0000_0000
    else if k == 7 then 0x100_0000_0000_0000 else 0x1_0000_0000_0000_0000
  }

  lemma LowestByte(n: nat, k: nat)
    requires 1 <= k <= 8
    ensures n % Power(k) == n % 256 + 256 * (n / 256 % Power(k - 1))
  {
    var q, r, p := n / 256, n % 256, Power(k - 1);
    var m, t := q / p, q % p;
    assert q == m * p + t;
    assert n == m * (256 * p) + (r + 256 * t);
    DivModUnique(n, 256 * p, m, r + 256 * t);
  }

  /** A field of k bytes holds a number up to multiples of 256^k. */
  lemma {:induction false} FieldHolds(n: nat, k: nat)
    requires k <= 8
    ensures FromLittle(Little(n, k)) == n % Power(k)
  {
    if k > 0 {
      FieldHolds(n / 256, k - 1);
      LowestByte(n, k);
      assert Little(n, k)[1..] == Little(n / 256, k - 1);
    }
  }

  lemma {:induction false} FieldBound(s: seq<Byte>)
    requires |s| <= 8
    ensures FromLittle(s) < Power(|s|) <= Power(8)
  {
    if s != [] {
      FieldBound(s[1..]);
    }
  }
}
