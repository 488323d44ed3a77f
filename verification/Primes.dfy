/** The first sixty-four prime numbers, from which FIPS 180-4 takes its constants. */
module Primes {

  const PRIME_ROWS: seq<seq<nat>> := [
    [2, 3, 5, 7, 11, 13, 17, 19],
    [23, 29, 31, 37, 41, 43, 47, 53],
    [59, 61, 67, 71, 73, 79, 83, 89],
    [97, 101, 103, 107, 109, 113, 127, 131],
    [137, 139, 149, 151, 157, 163, 167, 173],
    [179, 181, 191, 193, 197, 199, 211, 223],
    [227, 229, 233, 239, 241, 251, 257, 263],
    [269, 271, 277, 281, 283, 293, 307, 311]
  ]

  /** The prime at position t, from zero. */
  function Prime(t: nat): nat
    requires t < 64
  {
    PRIME_ROWS[t / 8][t % 8]
  }

  function Times(q: nat, d: nat): nat { q * d }

  ghost predicate Divides(d: nat, n: nat) {
    exists q: nat :: Times(q, d) == n
  }

  ghost predicate IsPrime(n: nat) {
    n > 1 && forall d: nat :: 1 < d < n ==> !Divides(d, n)
  }

  // ----- Trial division -----

  /** A prime up to 17, other than n, divides n. */
  predicate Sieved(n: nat) {
    || (n > 2 && n % 2 == 0) || (n > 3 && n % 3 == 0) || (n > 5 && n % 5 == 0) || (n > 7 && n % 7 == 0)
    || (n > 11 && n % 11 == 0) || (n > 13 && n % 13 == 0) || (n > 17 && n % 17 == 0)
  }

  lemma SievedIsComposite(n: nat)
    requires Sieved(n)
    ensures !IsPrime(n)
  {
    var d :=
      if n > 2 && n % 2 == 0 then 2 else if n > 3 && n % 3 == 0 then 3 else if n > 5 && n % 5 == 0 then 5
      else if n > 7 && n % 7 == 0 then 7 else if n > 11 && n % 11 == 0 then 11
      else if n > 13 && n % 13 == 0 then 13 else 17;
    assert n % d == 0;
    assert Times(n / d, d) == n;
    assert Divides(d, n);
  }

  lemma SmallDivisor(n: nat, q: nat, d: nat)
    requires 1 < d < n && d < 18 && Times(q, d) == n
    ensures Sieved(n)
  {
    hide Sieved;
    match d {
      case 4 | 6 | 8 | 10 | 12 | 14 | 16 =>
        assert q * d == (q * (d / 2)) * 2;
        SmallPrimeFactor(n, q * (d / 2), 2);
      case 9 | 15 =>
        assert q * d == (q * (d / 3)) * 3;
        SmallPrimeFactor(n, q * (d / 3), 3);
      case _ => SmallPrimeFactor(n, q, d);
    }
  }

  lemma SmallPrimeFactor(n: nat, q: nat, p: nat)
    requires p in {2, 3, 5, 7, 11, 13, 17} && p < n && n == q * p
    ensures Sieved(n)
  {
    MultipleModulo(q, p);
    assert n % p == 0;
  }

  lemma MultipleModulo(q: nat, p: nat)
    requires p > 0
    ensures (q * p) % p == 0
  {
    var m := q * p;
    var k := q - m / p;
    assert k * p == m % p;
    assert k >= 1 ==> k * p >= p;
    assert k <= -1 ==> k * p < 0;
  }

  /** Below 18 * 18, trial division by the primes up to 17 decides. */
  lemma SieveDecides(n: nat)
    requires 1 < n < 324
    ensures IsPrime(n) <==> !Sieved(n)
  {
    hide Sieved;
    if Sieved(n) {
      SievedIsComposite(n);
    } else {
      forall d: nat, q: nat | 1 < d < n
        ensures Times(q, d) != n
      {
        if Times(q, d) == n {
          SmallerFactor(n, q, d);
        }
      }
    }
  }

  lemma SmallerFactor(n: nat, q: nat, d: nat)
    requires 1 < d < n < 324 && Times(q, d) == n
    ensures Sieved(n)
  {
    if d < 18 {
      SmallDivisor(n, q, d);
    } else {
      assert q >= 18 ==> q * d >= 18 * 18;
      assert q != 0 && q != 1;
      assert q * d == d * q;
      SmallDivisor(n, d, q);
    }
  }

  // ----- The rows -----

  /** The sieve leaves n but no number between p and n. */
  predicate Next(p: nat, n: nat) {
    p < n && AllSieved(p + 1, n) && !Sieved(n)
  }

  predicate AllSieved(n: nat, m: nat)
    decreases m - n
  {
    n < m ==> Sieved(n) && AllSieved(n + 1, m)
  }

  /** From position i on, each entry of ps is followed by the next number that the sieve leaves; end follows
      the last. */
  predicate Consecutive(ps: seq<nat>, i: nat, end: nat)
    requires i < |ps|
    decreases |ps| - i
  {
    if i + 1 == |ps| then Next(ps[i], end) else Next(ps[i], ps[i + 1]) && Consecutive(ps, i + 1, end)
  }

  lemma Gaps0()
    ensures Next(2, 3) && Next(3, 5) && Next(5, 7) && Next(7, 11)
    ensures Next(11, 13) && Next(13, 17) && Next(17, 19) && Next(19, 23)
  {
  }

  lemma Gaps1()
    ensures Next(23, 29) && Next(29, 31) && Next(31, 37) && Next(37, 41)
    ensures Next(41, 43) && Next(43, 47) && Next(47, 53) && Next(53, 59)
  {
  }

  lemma Gaps2()
    ensures Next(59, 61) && Next(61, 67) && Next(67, 71) && Next(71, 73)
    ensures Next(73, 79) && Next(79, 83) && Next(83, 89) && Next(89, 97)
  {
  }

  lemma Gaps3()
    ensures Next(97, 101) && Next(101, 103) && Next(103, 107) && Next(107, 109)
    ensures Next(109, 113) && Next(113, 127) && Next(127, 131) && Next(131, 137)
  {
  }

  lemma Gaps4()
    ensures Next(137, 139) && Next(139, 149) && Next(149, 151) && Next(151, 157)
    ensures Next(157, 163) && Next(163, 167) && Next(167, 173) && Next(173, 179)
  {
  }

  lemma Gaps5()
    ensures Next(179, 181) && Next(181, 191) && Next(191, 193) && Next(193, 197)
    ensures Next(197, 199) && Next(199, 211) && Next(211, 223) && Next(223, 227)
  {
  }

  lemma Gaps6()
    ensures Next(227, 229) && Next(229, 233) && Next(233, 239) && Next(239, 241)
    ensures Next(241, 251) && Next(251, 257) && Next(257, 263) && Next(263, 269)
  {
  }

  lemma Gaps7()
    ensures Next(269, 271) && Next(271, 277) && Next(277, 281) && Next(281, 283)
    ensures Next(283, 293) && Next(293, 307) && Next(307, 311) && Next(311, 313)
  {
  }

  lemma Row0()
    ensures Consecutive(PRIME_ROWS[0], 0, 23)
  {
    hide Next;
    Gaps0();
  }

  lemma Row1()
    ensures Consecutive(PRIME_ROWS[1], 0, 59)
  {
    hide Next;
    Gaps1();
  }

  lemma Row2()
    ensures Consecutive(PRIME_ROWS[2], 0, 97)
  {
    hide Next;
    Gaps2();
  }

  lemma Row3()
    ensures Consecutive(PRIME_ROWS[3], 0, 137)
  {
    hide Next;
    Gaps3();
  }

  lemma Row4()
    ensures Consecutive(PRIME_ROWS[4], 0, 179)
  {
    hide Next;
    Gaps4();
  }

  lemma Row5()
    ensures Consecutive(PRIME_ROWS[5], 0, 227)
  {
    hide Next;
    Gaps5();
  }

  lemma Row6()
    ensures Consecutive(PRIME_ROWS[6], 0, 269)
  {
    hide Next;
    Gaps6();
  }

  lemma Row7()
    ensures Consecutive(PRIME_ROWS[7], 0, 313)
  {
    hide Next;
    Gaps7();
  }

  lemma {:induction false} ConsecutiveAt(ps: seq<nat>, i: nat, end: nat, j: nat)
    requires i <= j < |ps| && Consecutive(ps, i, end)
    ensures Next(ps[j], if j + 1 < |ps| then ps[j + 1] else end)
    decreases j - i
  {
    if i < j {
      ConsecutiveAt(ps, i + 1, end, j);
    }
  }

  /** The entry after the last one of row r, or the first prime after all rows. */
  function RowEnd(r: nat): nat
    requires r < 8
  {
    if r < 7 then PRIME_ROWS[r + 1][0] else 313
  }

  lemma RowIsConsecutive(r: nat)
    requires r < 8
    ensures |PRIME_ROWS[r]| == 8 && Consecutive(PRIME_ROWS[r], 0, RowEnd(r))
  {
    hide Consecutive;
    match r {
      case 0 => Row0();
      case 1 => Row1();
      case 2 => Row2();
      case 3 => Row3();
      case 4 => Row4();
      case 5 => Row5();
      case 6 => Row6();
      case _ => Row7();
    }
  }

  lemma NextOfPrime(t: nat)
    requires t < 63
    ensures Next(Prime(t), Prime(t + 1))
  {
    hide Next, Consecutive;
    var r, j := t / 8, t % 8;
    RowIsConsecutive(r);
    ConsecutiveAt(PRIME_ROWS[r], 0, RowEnd(r), j);
    assert t == 8 * r + j;
    if j < 7 {
      assert (t + 1) / 8 == r && (t + 1) % 8 == j + 1;
    } else {
      assert (t + 1) / 8 == r + 1 && (t + 1) % 8 == 0;
    }
  }

  lemma {:induction false} AllSievedAt(n: nat, m: nat, x: nat)
    requires AllSieved(n, m) && n <= x < m
    ensures Sieved(x)
    decreases m - n
  {
    hide Sieved;
    if n < x {
      AllSievedAt(n + 1, m, x);
    }
  }

  lemma PrimeRange(t: nat)
    requires t < 64
    ensures 1 < Prime(t) < 324
  {
  }

  /** From one entry to the next: the next one is prime, and no number between the two is. */
  lemma NextPrime(t: nat)
    requires t < 63
    ensures IsPrime(Prime(t + 1)) && Prime(t) < Prime(t + 1)
    ensures forall x: nat :: Prime(t) < x < Prime(t + 1) ==> !IsPrime(x)
  {
    hide Sieved, Prime, AllSieved, IsPrime;
    NextOfPrime(t);
    PrimeRange(t);
    PrimeRange(t + 1);
    SieveDecides(Prime(t + 1));
    forall x: nat | Prime(t) < x < Prime(t + 1)
      ensures !IsPrime(x)
    {
      AllSievedAt(Prime(t) + 1, Prime(t + 1), x);
      SieveDecides(x);
    }
  }

  lemma TwoIsPrime()
    ensures Prime(0) == 2 && IsPrime(2)
  {
    SieveDecides(2);
  }

  /** The primes up to Prime(t) are Prime(0) to Prime(t), in ascending order: so Prime(t) is the prime
      at position t. */
  lemma {:induction false} FirstPrimes(t: nat, n: nat)
    requires t < 64 && n <= Prime(t)
    ensures IsPrime(n) <==> exists s: nat :: s <= t && Prime(s) == n
    ensures forall s: nat :: s < t ==> Prime(s) < Prime(t)
  {
    hide Prime;
    TwoIsPrime();
    if t > 0 {
      hide IsPrime;
      NextPrime(t - 1);
      FirstPrimes(t - 1, if n <= Prime(t - 1) then n else Prime(t - 1));
    }
  }
}
