/** The retry delay of the outbox dispatcher, in 64-bit nanosecond arithmetic. */
module Backoff {

  const SECOND: int := 1_000_000_000
  const MILLISECOND: int := 1_000_000

  function Pow2(n: nat): (p: int)
    ensures p >= 1
  {
    if n == 0 then 1 else 2 * Pow2(n - 1)
  }

  /** Two's-complement wrap-around of a 64-bit signed integer. */
  function Wrap64(x: int): (w: int)
    ensures -0x8000_0000_0000_0000 <= w < 0x8000_0000_0000_0000
    ensures -0x8000_0000_0000_0000 <= x < 0x8000_0000_0000_0000 ==> w == x
  {
    var m := x % 0x1_0000_0000_0000_0000;
    if m >= 0x8000_0000_0000_0000 then m - 0x1_0000_0000_0000_0000 else m
  }

  /**
   * What is random or platform-dependent in one backoff: the jitter in milliseconds, and the
   * integer that converting the float 2^retry yields once it no longer fits 64 bits.
   */
  datatype Wait = Wait(jitter: nat, overflow: int)

  predicate ValidWait(w: Wait) {
    w.jitter < 1000
  }

  function Delay(retry: nat, w: Wait): int {
    var exp := if retry <= 62 then Pow2(retry) else w.overflow;
    var delay := Wrap64(Wrap64(exp * SECOND) + w.jitter * MILLISECOND);
    if delay > 60 * SECOND then 60 * SECOND + w.jitter * MILLISECOND else delay
  }

  lemma DelayBelow61Seconds(retry: nat, w: Wait)
    requires ValidWait(w)
    ensures Delay(retry, w) < 61 * SECOND
  {
  }

  function Floor(retry: nat): int {
    if Pow2(retry) < 60 then Pow2(retry) * SECOND else 60 * SECOND
  }

  lemma {:induction false} Pow2Monotone(a: nat, b: nat)
    requires a <= b
    ensures Pow2(a) <= Pow2(b)
    decreases b
  {
    if a < b {
      Pow2Monotone(a, b - 1);
    }
  }

  /** The delay in nanoseconds after the int64 multiplication by one second. */
  function Product(retry: nat): int {
    Wrap64(Pow2(retry) * SECOND)
  }

  lemma WrapIsShift(x: int) returns (q: int)
    ensures Wrap64(x) == x - q * 0x1_0000_0000_0000_0000
  {
    q := x / 0x1_0000_0000_0000_0000;
    if Wrap64(x) < 0 {
      q := q + 1;
    }
  }

  lemma ShiftUnique(x: int, v: int, q: int)
    requires v == x - q * 0x1_0000_0000_0000_0000
    requires -0x8000_0000_0000_0000 <= v < 0x8000_0000_0000_0000
    ensures Wrap64(x) == v
  {
    var p := WrapIsShift(x);
  }

  /** Doubling commutes with wrap-around, so each product follows from the previous one. */
  lemma Doubled(retry: nat, v: int)
    requires retry >= 1
    requires -0x8000_0000_0000_0000 <= v < 0x8000_0000_0000_0000
    requires v - 2 * Product(retry - 1) in {-0x1_0000_0000_0000_0000, 0, 0x1_0000_0000_0000_0000}
    ensures Product(retry) == v
  {
    var q := WrapIsShift(Pow2(retry - 1) * SECOND);
    var k := if v - 2 * Product(retry - 1) == 0 then 0 else if v > 2 * Product(retry - 1) then -1 else 1;
    ShiftUnique(Pow2(retry) * SECOND, v, 2 * q + k);
  }

  lemma Product33()
    ensures Pow2(33) == 8589934592 && Product(33) == 8589934592000000000
  {
    assert Pow2(11) == 2048;
    assert Pow2(22) == 4194304;
  }

  lemma ProductsUpTo44()
    ensures Product(34) == -1266874889709551616 && Product(35) == -2533749779419103232
    ensures Product(36) == -5067499558838206464 && Product(37) == 8311744956033138688
    ensures Product(38) == -1823254161643274240 && Product(39) == -3646508323286548480
    ensures Product(40) == -7293016646573096960 && Product(41) == 3860710780563357696
    ensures Product(42) == 7721421561126715392 && Product(43) == -3003900951456120832
    ensures Product(44) == -6007801902912241664
  {
    Product33();
    Doubled(34, -1266874889709551616); Doubled(35, -2533749779419103232);
    Doubled(36, -5067499558838206464); Doubled(37, 8311744956033138688);
    Doubled(38, -1823254161643274240); Doubled(39, -3646508323286548480);
    Doubled(40, -7293016646573096960); Doubled(41, 3860710780563357696);
    Doubled(42, 7721421561126715392); Doubled(43, -3003900951456120832);
    Doubled(44, -6007801902912241664);
  }

  lemma ProductsFrom45()
    ensures Product(45) == 6431140267885068288 && Product(46) == -5584463537939415040
    ensures Product(47) == 7277816997830721536 && Product(48) == -3891110078048108544
    ensures Product(49) == -7782220156096217088 && Product(50) == 2882303761517117440
    ensures Product(51) == 5764607523034234880 && Product(52) == -6917529027641081856
    ensures Product(53) == 4611686018427387904 && Product(54) == -9223372036854775808
    ensures Product(55) == 0
  {
    ProductsUpTo44();
    Doubled(45, 6431140267885068288); Doubled(46, -5584463537939415040);
    Doubled(47, 7277816997830721536); Doubled(48, -3891110078048108544);
    Doubled(49, -7782220156096217088); Doubled(50, 2882303761517117440);
    Doubled(51, 5764607523034234880); Doubled(52, -6917529027641081856);
    Doubled(53, 4611686018427387904); Doubled(54, -9223372036854775808);
    Doubled(55, 0);
  }

  /** From retry 55 on, 2^retry seconds is a multiple of 2^64 nanoseconds. */
  lemma {:induction false} ProductVanishes(retry: nat)
    requires retry >= 55
    ensures Product(retry) == 0
  {
    if retry == 55 {
      ProductsFrom45();
    } else {
      ProductVanishes(retry - 1);
      Doubled(retry, 0);
    }
  }

  /** The retries past 33 whose product stays large and positive. */
  predicate SurvivesWrap(retry: nat) {
    retry in {37, 41, 42, 45, 47, 50, 51, 53}
  }

  lemma Products(retry: nat)
    requires 34 <= retry <= 62
    ensures SurvivesWrap(retry) ==> 60 * SECOND < Product(retry) < 0x7fff_0000_0000_0000
    ensures !SurvivesWrap(retry) ==> Product(retry) <= 0
  {
    if retry >= 55 {
      ProductVanishes(retry);
    } else if retry <= 44 {
      ProductsUpTo44();
      match retry {
        case 34 => case 35 => case 36 => case 37 => case 38 => case 39 =>
        case 40 => case 41 => case 42 => case 43 => case 44 =>
        case _ => assert false;
      }
    } else {
      ProductsFrom45();
      match retry {
        case 45 => case 46 => case 47 => case 48 => case 49 =>
        case 50 => case 51 => case 52 => case 53 => case 54 =>
        case _ => assert false;
      }
    }
  }

  /**
   * The documented floor min(60 s, 2^retry s) holds for every jitter exactly at the retries whose
   * 64-bit product does not wrap to a small or negative delay, and whose power of two fits 64 bits.
   */
  lemma BackoffFloorExact(retry: nat)
    ensures (forall w | ValidWait(w) :: Delay(retry, w) >= (if retry < 6 then Pow2(retry) else 60) * 1_000_000_000)
       <==> (retry <= 33 || retry in {37, 41, 42, 45, 47, 50, 51, 53})
  {
    if retry < 6 {
      SmallPowers(retry);
    } else {
      FloorIsMinute(retry);
    }
    if retry <= 33 || SurvivesWrap(retry) {
      forall w | ValidWait(w) ensures Delay(retry, w) >= Floor(retry) {
        FloorKept(retry, w);
      }
    } else {
      if retry <= 62 {
        Products(retry);
      }
      FloorIsMinute(retry);
      assert ValidWait(Wait(0, 0)) && Delay(retry, Wait(0, 0)) < Floor(retry);
    }
  }

  lemma SmallPowers(retry: nat)
    requires retry < 6
    ensures Pow2(retry) == [1, 2, 4, 8, 16, 32][retry] && Floor(retry) == Pow2(retry) * SECOND
  {
    assert Pow2(1) == 2 && Pow2(2) == 4 && Pow2(3) == 8;
  }

  /**
   * The delay in numbers: the power of two in seconds, from the sixth retry on a minute, each plus the jitter
   * in milliseconds; from the 34th on the wrapped product leaves a minute or no more than the jitter, and past
   * the 62nd it is whatever number of seconds the conversion yields.
   */
  lemma DelayIsExact(retry: nat, jitter: nat, overflow: int)
    requires jitter < 1000
    ensures var delay := Delay(retry, Wait(jitter, overflow));
      && (retry < 6 ==> delay == [1, 2, 4, 8, 16, 32][retry] * 1_000_000_000 + jitter * 1_000_000)
      && (6 <= retry <= 33 || retry in {37, 41, 42, 45, 47, 50, 51, 53} ==>
            delay == 60_000_000_000 + jitter * 1_000_000)
      && (33 < retry <= 62 && retry !in {37, 41, 42, 45, 47, 50, 51, 53} ==> delay <= jitter * 1_000_000)
      && (55 <= retry <= 62 ==> delay == jitter * 1_000_000)
      && (retry > 62 && 0 <= overflow < 60 ==> delay == overflow * 1_000_000_000 + jitter * 1_000_000)
  {
    if retry > 62 {
    } else if retry <= 33 {
      Pow2Monotone(retry, 33);
      Product33();
      var p := Pow2(retry) * SECOND;
      assert Wrap64(p) == p && Wrap64(p + jitter * MILLISECOND) == p + jitter * MILLISECOND;
      if retry < 6 {
        SmallPowers(retry);
      } else {
        Pow2Monotone(6, retry);
        assert Pow2(6) == 64;
      }
    } else {
      Products(retry);
      if retry >= 55 {
        ProductVanishes(retry);
      }
      assert Product(retry) + jitter * MILLISECOND < 0x7fff_ffff_ffff_ffff;
    }
  }

  lemma FloorIsMinute(retry: nat)
    requires retry >= 6
    ensures Floor(retry) == 60 * SECOND
  {
    Pow2Monotone(6, retry);
    assert Pow2(6) == 64;
  }

  lemma FloorKept(retry: nat, w: Wait)
    requires ValidWait(w)
    requires retry <= 33 || SurvivesWrap(retry)
    ensures Delay(retry, w) >= Floor(retry)
  {
    if retry <= 33 {
      Pow2Monotone(retry, 33);
      Product33();
      assert Wrap64(Pow2(retry) * SECOND) == Pow2(retry) * SECOND;
      assert Wrap64(Pow2(retry) * SECOND + w.jitter * MILLISECOND) == Pow2(retry) * SECOND + w.jitter * MILLISECOND;
    } else {
      Products(retry);
      FloorIsMinute(retry);
    }
  }
}
