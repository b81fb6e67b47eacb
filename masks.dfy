/** Unsigned 64-bit words (`unsigned long long`) as sequences of bits.
    Element i of a word is bit i, so element 0 is the least significant bit.
    The operators are the C operators the engine uses on its masks:
    `&`, `|`, `^`, `~`, `>>`, `<<`, `x - 1`, `-x` and `__builtin_ctzll`. */
module Masks {

  const Width: nat := 64

  type Mask = s: seq<bool> | |s| == Width witness seq(Width, i => false)

  /** `0ULL` */
  function Zero(): Mask { seq(Width, i => false) }

  /** `0x1ULL` */
  function One(): Mask { seq(Width, i => i == 0) }

  /** `a & b` */
  function And(a: seq<bool>, b: seq<bool>): (r: seq<bool>)
    requires |a| == |b|
    ensures |r| == |a|
  {
    seq(|a|, i requires 0 <= i < |a| => a[i] && b[i])
  }

  /** `a | b` */
  function Or(a: seq<bool>, b: seq<bool>): (r: seq<bool>)
    requires |a| == |b|
    ensures |r| == |a|
  {
    seq(|a|, i requires 0 <= i < |a| => a[i] || b[i])
  }

  /** `a ^ b` */
  function Xor(a: seq<bool>, b: seq<bool>): (r: seq<bool>)
    requires |a| == |b|
    ensures |r| == |a|
  {
    seq(|a|, i requires 0 <= i < |a| => a[i] != b[i])
  }

  /** `~a` */
  function Not(a: seq<bool>): (r: seq<bool>)
    ensures |r| == |a|
  {
    seq(|a|, i requires 0 <= i < |a| => !a[i])
  }

  /** `a >> n`: bits shifted towards bit 0, zeros enter at the top. */
  function Shr(a: seq<bool>, n: nat): (r: seq<bool>)
    ensures |r| == |a|
  {
    seq(|a|, i requires 0 <= i < |a| => i + n < |a| && a[i + n])
  }

  /** `a << n`: bits shifted away from bit 0, zeros enter at the bottom. */
  function Shl(a: seq<bool>, n: nat): (r: seq<bool>)
    ensures |r| == |a|
  {
    seq(|a|, i requires 0 <= i < |a| => i >= n && a[i - n])
  }

  /** `a - 1` in unsigned arithmetic: the borrow ripples up from bit 0
      (so `0 - 1` wraps around to all ones). */
  function Dec(a: seq<bool>): (r: seq<bool>)
    ensures |r| == |a|
  {
    if |a| == 0 then []
    else if a[0] then [false] + a[1..]
    else [true] + Dec(a[1..])
  }

  /** `a + 1` in unsigned arithmetic: the carry ripples up from bit 0. */
  function Inc(a: seq<bool>): (r: seq<bool>)
    ensures |r| == |a|
  {
    if |a| == 0 then []
    else if a[0] then [false] + Inc(a[1..])
    else [true] + a[1..]
  }

  /** `-a` in two's complement: `~a + 1`. */
  function Neg(a: seq<bool>): (r: seq<bool>)
    ensures |r| == |a|
  {
    Inc(Not(a))
  }

  /** `__builtin_ctzll(a)`: the number of trailing zero bits, i.e. the
      position of the lowest set bit (undefined in C for a zero word). */
  function Ctz(a: seq<bool>): (k: nat)
    requires true in a
    ensures k < |a| && a[k]
    ensures forall i :: 0 <= i < k ==> !a[i]
  {
    if a[0] then 0 else 1 + Ctz(a[1..])
  }

  /** The number of set bits (population count). */
  function Count(a: seq<bool>): (n: nat)
    ensures n <= |a|
  {
    if |a| == 0 then 0
    else Count(a[..|a| - 1]) + (if a[|a| - 1] then 1 else 0)
  }

  /** A word with exactly bit k set. */
  function Single(k: nat): (r: Mask)
    requires k < Width
  {
    seq(Width, i => i == k)
  }

  lemma {:induction false} CountZeroIff(a: seq<bool>)
    ensures Count(a) == 0 <==> true !in a
  {
    if |a| > 0 {
      var p := a[..|a| - 1];
      CountZeroIff(p);
      assert a == p + [a[|a| - 1]];
    }
  }

  lemma CountOfZero()
    ensures Count(Zero()) == 0
  {
    CountZeroIff(Zero());
  }

  lemma ZeroIff(a: Mask)
    ensures a == Zero() <==> true !in a
  {
    if true !in a {
      assert forall i :: 0 <= i < Width ==> a[i] == Zero()[i];
    }
  }

  /** Changing one bit changes the population count by exactly that bit. */
  lemma {:induction false} CountUpdate(a: seq<bool>, k: nat, v: bool)
    requires k < |a|
    ensures Count(a[k := v]) == Count(a) - (if a[k] then 1 else 0) + (if v then 1 else 0)
  {
    var n := |a| - 1;
    if k < n {
      assert a[k := v][..n] == a[..n][k := v];
      CountUpdate(a[..n], k, v);
    } else {
      assert a[k := v][..n] == a[..n];
    }
  }

  /** Inclusion-exclusion for population counts. */
  lemma {:induction false} CountOrAnd(a: seq<bool>, b: seq<bool>)
    requires |a| == |b|
    ensures Count(Or(a, b)) + Count(And(a, b)) == Count(a) + Count(b)
  {
    if |a| > 0 {
      var n := |a| - 1;
      assert Or(a, b)[..n] == Or(a[..n], b[..n]);
      assert And(a, b)[..n] == And(a[..n], b[..n]);
      CountOrAnd(a[..n], b[..n]);
    }
  }

  /** Clearing the bits of b from a removes exactly the bits a and b share. */
  lemma {:induction false} CountAndNot(a: seq<bool>, b: seq<bool>)
    requires |a| == |b|
    ensures Count(And(a, Not(b))) + Count(And(a, b)) == Count(a)
  {
    if |a| > 0 {
      var n := |a| - 1;
      assert And(a, Not(b))[..n] == And(a[..n], Not(b[..n]));
      assert And(a, b)[..n] == And(a[..n], b[..n]);
      CountAndNot(a[..n], b[..n]);
    }
  }

  /** `a & (a - 1)` clears the lowest set bit of a. */
  lemma {:induction false} DecClearsLowest(a: seq<bool>)
    requires true in a
    ensures And(a, Dec(a)) == a[Ctz(a) := false]
  {
    if a[0] {
      assert And(a, Dec(a)) == a[0 := false];
    } else {
      var t := a[1..];
      assert t[Ctz(a) - 1] == a[Ctz(a)];
      DecClearsLowest(t);
      assert And(a, Dec(a)) == [false] + And(t, Dec(t));
      assert a[Ctz(a) := false] == [false] + t[Ctz(t) := false];
    }
  }

  /** `a & -a` isolates the lowest set bit of a. */
  lemma {:induction false} NegIsolatesLowest(a: seq<bool>)
    requires true in a
    ensures And(a, Neg(a)) == seq(|a|, i => i == Ctz(a))
  {
    var t := a[1..];
    assert Not(a)[1..] == Not(t);
    if a[0] {
      assert Neg(a) == [true] + Not(t);
      assert And(a, Neg(a)) == seq(|a|, i => i == 0);
    } else {
      assert t[Ctz(a) - 1] == a[Ctz(a)];
      NegIsolatesLowest(t);
      assert Neg(a) == [false] + Neg(t);
      assert And(a, Neg(a)) == [false] + And(t, Neg(t));
    }
  }

  /** The trailing-zero count of a one-bit word is the position of that bit. */
  lemma CtzOfSingle(a: Mask, k: nat)
    requires k < Width
    requires forall i :: 0 <= i < Width ==> (a[i] <==> i == k)
    ensures true in a && Ctz(a) == k
  {
    assert a[k];
  }

  /** `a | (1 << k)` sets bit k; when it was clear the count grows by one. */
  lemma SetBit(a: Mask, k: nat)
    requires k < Width
    ensures Or(a, Single(k)) == a[k := true]
    ensures !a[k] ==> Count(Or(a, Single(k))) == Count(a) + 1
  {
    assert Or(a, Single(k)) == a[k := true];
    CountUpdate(a, k, true);
  }
}
