/**
 * Numbers written with digits in a base, most significant first: the arithmetic under
 * Base58.
 */
module Radix {

  ghost predicate DigitsIn(ds: seq<nat>, base: nat) {
    forall i :: 0 <= i < |ds| ==> ds[i] < base
  }

  function Value(ds: seq<nat>, base: nat): nat {
    if ds == [] then 0 else Value(ds[..|ds| - 1], base) * base + ds[|ds| - 1]
  }

  /** The digits of a number, without leading zeros; none for zero. */
  function Digits(n: nat, base: nat): (ds: seq<nat>)
    requires base >= 2
    ensures DigitsIn(ds, base)
    decreases n
  {
    if n == 0 then []
    else
      DivShrinks(n, base);
      Digits(n / base, base) + [n % base]
  }

  lemma DivShrinks(n: nat, base: nat)
    requires base >= 2 && n > 0
    ensures 0 <= n / base < n
  {
    DivMod(n, base);
    MulMono(2, base, n / base);
  }

  lemma DivMod(n: nat, base: nat)
    requires base >= 1
    ensures n == n / base * base + n % base && 0 <= n % base < base
  {
  }

  lemma MulMono(a: nat, b: nat, c: nat)
    requires a <= b
    ensures a * c <= b * c && c * a <= c * b
  {
  }

  lemma DivModUnique(n: nat, q: nat, r: nat, base: nat)
    requires base >= 1 && r < base && n == q * base + r
    ensures n / base == q && n % base == r
  {
    DivMod(n, base);
    var q', r' := n / base, n % base;
    assert (q' + 1) * base == q' * base + base;
    assert (q + 1) * base == q * base + base;
    if q' < q {
      MulMono(q' + 1, q, base);
    }
    if q < q' {
      MulMono(q + 1, q', base);
    }
  }

  function Zeros(n: nat): (z: seq<nat>)
    ensures |z| == n && forall i :: 0 <= i < n ==> z[i] == 0
  {
    seq(n, _ => 0)
  }

  function LeadingZeros(ds: seq<nat>): (n: nat)
    ensures n <= |ds|
    ensures forall i :: 0 <= i < n ==> ds[i] == 0
    ensures n < |ds| ==> ds[n] != 0
  {
    if ds == [] || ds[0] != 0 then 0
    else
      var n := LeadingZeros(ds[1..]);
      assert forall i :: 0 <= i < |ds[1..]| ==> ds[1..][i] == ds[i + 1];
      n + 1
  }

  lemma ValueSnoc(ds: seq<nat>, d: nat, base: nat)
    ensures Value(ds + [d], base) == Value(ds, base) * base + d
  {
    assert (ds + [d])[..|ds|] == ds;
  }

  lemma {:induction false} ValueZeros(ds: seq<nat>, base: nat)
    requires forall i :: 0 <= i < |ds| ==> ds[i] == 0
    ensures Value(ds, base) == 0
  {
    if ds != [] {
      ValueZeros(ds[..|ds| - 1], base);
    }
  }

  /** Leading zeros do not count. */
  lemma {:induction false} ValueDropsZeros(zeros: seq<nat>, ds: seq<nat>, base: nat)
    requires forall i :: 0 <= i < |zeros| ==> zeros[i] == 0
    ensures Value(zeros + ds, base) == Value(ds, base)
    decreases |ds|
  {
    if ds == [] {
      assert zeros + ds == zeros;
      ValueZeros(zeros, base);
    } else {
      var front, d := ds[..|ds| - 1], ds[|ds| - 1];
      ValueDropsZeros(zeros, front, base);
      assert zeros + ds == (zeros + front) + [d];
      ValueSnoc(zeros + front, d, base);
    }
  }

  lemma {:induction false} ValueOfDigits(n: nat, base: nat)
    requires base >= 2
    ensures Value(Digits(n, base), base) == n
    decreases n
  {
    if n > 0 {
      DivShrinks(n, base);
      ValueOfDigits(n / base, base);
      ValueSnoc(Digits(n / base, base), n % base, base);
      DivMod(n, base);
    }
  }

  lemma ValuePositive(ds: seq<nat>, base: nat)
    requires base >= 1 && ds != [] && ds[0] != 0
    ensures Value(ds, base) > 0
  {
    if |ds| > 1 {
      ValuePositive(ds[..|ds| - 1], base);
      MulMono(1, Value(ds[..|ds| - 1], base), base);
    }
  }

  lemma {:induction false} DigitsOfValue(ds: seq<nat>, base: nat)
    requires base >= 2 && DigitsIn(ds, base)
    requires ds != [] ==> ds[0] != 0
    ensures Digits(Value(ds, base), base) == ds
    decreases |ds|
  {
    if ds != [] {
      var front, d := ds[..|ds| - 1], ds[|ds| - 1];
      ValuePositive(ds, base);
      DigitsOfValue(front, base);
      DivModUnique(Value(ds, base), Value(front, base), d, base);
      assert ds == front + [d];
    }
  }

  lemma {:induction false} DigitsHead(n: nat, base: nat)
    requires base >= 2 && n > 0
    ensures Digits(n, base) != [] && Digits(n, base)[0] != 0
    decreases n
  {
    DivShrinks(n, base);
    if n / base == 0 {
      DivMod(n, base);
      assert Digits(n / base, base) == [];
    } else {
      DigitsHead(n / base, base);
    }
  }

  // ---- changing the base -------------------------------------------------------------------

  /** The same number in another base, keeping the count of leading zeros. */
  function Rebase(ds: seq<nat>, base: nat, base': nat): seq<nat>
    requires base' >= 2
  {
    Zeros(LeadingZeros(ds)) + Digits(Value(ds, base), base')
  }

  lemma LeadingZerosOfRebased(z: nat, n: nat, base: nat)
    requires base >= 2
    ensures LeadingZeros(Zeros(z) + Digits(n, base)) == z
  {
    var ds := Zeros(z) + Digits(n, base);
    if n > 0 {
      DigitsHead(n, base);
      assert ds[z] == Digits(n, base)[0];
    }
    LeadingZerosAre(ds, z);
  }

  lemma LeadingZerosAre(ds: seq<nat>, z: nat)
    requires z <= |ds|
    requires forall i :: 0 <= i < z ==> ds[i] == 0
    requires z < |ds| ==> ds[z] != 0
    ensures LeadingZeros(ds) == z
  {
  }

  /** Rebasing keeps the number and the count of leading zeros. */
  lemma RebaseKeeps(ds: seq<nat>, base: nat, base': nat)
    requires base' >= 2
    ensures Value(Rebase(ds, base, base'), base') == Value(ds, base)
    ensures LeadingZeros(Rebase(ds, base, base')) == LeadingZeros(ds)
  {
    var z, n := LeadingZeros(ds), Value(ds, base);
    LeadingZerosOfRebased(z, n, base');
    ValueDropsZeros(Zeros(z), Digits(n, base'), base');
    ValueOfDigits(n, base');
  }

  /** Rebasing there and back is the identity on digit strings. */
  lemma RebaseRoundTrip(ds: seq<nat>, base: nat, base': nat)
    requires base >= 2 && base' >= 2 && DigitsIn(ds, base)
    ensures Rebase(Rebase(ds, base, base'), base', base) == ds
  {
    var z, n := LeadingZeros(ds), Value(ds, base);
    var rest := ds[z..];
    LeadingZerosOfRebased(z, n, base');
    ValueDropsZeros(Zeros(z), Digits(n, base'), base');
    ValueOfDigits(n, base');
    assert ds == Zeros(z) + rest;
    ValueDropsZeros(Zeros(z), rest, base);
    DigitsOfValue(rest, base);
  }

  // ---- lengths -----------------------------------------------------------------------------

  function Pow(base: nat, k: nat): nat {
    if k == 0 then 1 else Pow(base, k - 1) * base
  }

  lemma {:induction false} PowMono(a: nat, b: nat, k: nat)
    requires a <= b
    ensures Pow(a, k) <= Pow(b, k)
  {
    if k > 0 {
      PowMono(a, b, k - 1);
      MulMono(Pow(a, k - 1), Pow(b, k - 1), a);
      MulMono(a, b, Pow(b, k - 1));
    }
  }

  lemma {:induction false} PowGrows(base: nat, j: nat, k: nat)
    requires base >= 1 && j <= k
    ensures 1 <= Pow(base, j) <= Pow(base, k)
    decreases k
  {
    if k == 0 {
    } else if j < k {
      PowGrows(base, j, k - 1);
      MulMono(1, base, Pow(base, k - 1));
    } else {
      PowGrows(base, k - 1, k - 1);
      MulMono(1, Pow(base, k - 1), base);
    }
  }

  lemma {:induction false} PowGrowsStrictly(base: nat, j: nat, k: nat)
    requires base >= 2 && Pow(base, j) < Pow(base, k)
    ensures j < k
  {
    if k <= j {
      PowGrows(base, k, j);
    }
  }

  lemma MulAssoc(x: nat, y: nat, z: nat)
    ensures (x * y) * z == x * (y * z)
  {
  }

  lemma {:induction false} PowSum(base: nat, j: nat, k: nat)
    ensures Pow(base, j + k) == Pow(base, j) * Pow(base, k)
  {
    if k > 0 {
      PowSum(base, j, k - 1);
      MulAssoc(Pow(base, j), Pow(base, k - 1), base);
    }
  }

  lemma {:induction false} PowPow(base: nat, j: nat, k: nat)
    ensures Pow(Pow(base, j), k) == Pow(base, j * k)
  {
    if k > 0 {
      PowPow(base, j, k - 1);
      PowSum(base, j * (k - 1), j);
      assert j * (k - 1) + j == j * k;
    }
  }

  lemma {:induction false} ValueBelow(ds: seq<nat>, base: nat)
    requires base >= 1 && DigitsIn(ds, base)
    ensures Value(ds, base) < Pow(base, |ds|)
  {
    if ds != [] {
      var front := ds[..|ds| - 1];
      ValueBelow(front, base);
      MulMono(Value(front, base) + 1, Pow(base, |front|), base);
      assert (Value(front, base) + 1) * base == Value(front, base) * base + base;
    }
  }

  lemma {:induction false} ValueAtLeast(ds: seq<nat>, base: nat)
    requires base >= 1 && ds != [] && ds[0] != 0
    ensures Value(ds, base) >= Pow(base, |ds| - 1)
  {
    if |ds| > 1 {
      var front := ds[..|ds| - 1];
      ValueAtLeast(front, base);
      MulMono(Pow(base, |front| - 1), Value(front, base), base);
    } else {
      assert ds[..0] == [];
    }
  }

  lemma TwoFiftySixAndFiftyEight()
    ensures Pow(256, 8) <= Pow(58, 11)
  {
    assert Pow(256, 2) == 0x10000;
    assert Pow(256, 4) == 0x1_0000_0000 by { PowSum(256, 2, 2); }
    assert Pow(256, 8) == 0x1_0000_0000_0000_0000 by { PowSum(256, 4, 4); }
    assert Pow(58, 2) == 3364;
    assert Pow(58, 4) == 11316496 by { PowSum(58, 2, 2); }
    assert Pow(58, 8) == 128063081718016 by { PowSum(58, 4, 4); }
    assert Pow(58, 3) == 195112;
    assert Pow(58, 11) == 24986644000165537792 by { PowSum(58, 8, 3); }
  }

  /** Bounds on the number of base-58 digits of a number written in `m` significant bytes. */
  lemma DigitCount(ds: seq<nat>)
    requires DigitsIn(ds, 256) && ds != [] && ds[0] != 0
    ensures |ds| <= |Digits(Value(ds, 256), 58)| <= (11 * |ds| + 7) / 8
  {
    var m, n := |ds|, Value(ds, 256);
    var es := Digits(n, 58);
    var k := |es|;
    ValuePositive(ds, 256);
    DigitsHead(n, 58);
    ValueOfDigits(n, 58);
    ValueBelow(ds, 256);
    ValueAtLeast(ds, 256);
    ValueBelow(es, 58);
    ValueAtLeast(es, 58);
    // 58^(m-1) <= 256^(m-1) <= n < 58^k
    PowMono(58, 256, m - 1);
    PowGrowsStrictly(58, m - 1, k);
    // 58^(8(k-1)) <= n^8 < 256^(8m) <= 58^(11m)
    EighthPowers(k - 1, m, n);
  }

  lemma EighthPowers(k: nat, m: nat, n: nat)
    requires Pow(58, k) <= n < Pow(256, m)
    ensures 8 * k < 11 * m
  {
    PowMonoStrict(Pow(58, k), Pow(256, m), 8);
    PowPow(58, k, 8);
    PowPow(256, m, 8);
    PowPow(256, 8, m);
    TwoFiftySixAndFiftyEight();
    PowMono(Pow(256, 8), Pow(58, 11), m);
    PowPow(58, 11, m);
    PowGrowsStrictly(58, k * 8, 11 * m);
  }

  lemma {:induction false} PowMonoStrict(a: nat, b: nat, k: nat)
    requires a < b && k > 0
    ensures Pow(a, k) < Pow(b, k)
  {
    if k > 1 {
      PowMonoStrict(a, b, k - 1);
      var x, y := Pow(a, k - 1), Pow(b, k - 1);
      MulMono(x, y, a);
      MulMono(a + 1, b, y);
      assert (a + 1) * y == a * y + y;
    }
  }
}
