/** The scaling loop of `formatBytes`
    (ui/pages/hosts_page/model/host_metrics.go:58-72, also internal/web/handlers/dashboard.go:651-665). */
module ByteFormat {

  newtype uint64 = n: int | 0 <= n < 0x1_0000_0000_0000_0000

  const UNIT: uint64 := 1024

  const SUFFIXES: seq<string> := ["KB", "MB", "GB", "TB", "PB", "EB"]

  /** A count of bytes, or a quotient and the suffix it is shown with. */
  datatype Label = Plain(bytes: uint64) | Scaled(bytes: uint64, div: uint64, suffix: string)

  function Pow1024(k: nat): (r: nat)
    ensures r >= 1
  {
    if k == 0 then 1 else 1024 * Pow1024(k - 1)
  }

  lemma {:induction false} Pow1024Grows(a: nat, b: nat)
    requires a <= b
    ensures Pow1024(a) <= Pow1024(b)
  {
    if a < b {
      Pow1024Grows(a, b - 1);
    }
  }

  lemma SevenIsTooMany()
    ensures Pow1024(7) >= 0x1_0000_0000_0000_0000
  {
    assert Pow1024(1) == 1024 * Pow1024(0);
    assert Pow1024(2) == 1024 * Pow1024(1);
    assert Pow1024(3) == 1024 * Pow1024(2);
    assert Pow1024(4) == 1024 * Pow1024(3);
    assert Pow1024(5) == 1024 * Pow1024(4);
    assert Pow1024(6) == 1024 * Pow1024(5);
    assert Pow1024(7) == 1024 * Pow1024(6);
  }

  /** The scale that fits a count: its unit, and none larger, goes into it. */
  ghost predicate Fits(bytes: uint64, div: uint64, exp: nat) {
    && div as int == Pow1024(exp + 1)
    && div as int <= bytes as int < 1024 * (div as int)
  }

  /** At most one scale fits. */
  lemma ScaleIsUnique(bytes: uint64, d: uint64, e: nat, d': uint64, e': nat)
    requires Fits(bytes, d, e) && Fits(bytes, d', e')
    ensures d == d' && e == e'
  {
    if e < e' {
      Pow1024Grows(e + 2, e' + 1);
    } else if e' < e {
      Pow1024Grows(e' + 2, e + 1);
    }
  }

  /** `uint64` arithmetic neither overflows nor divides to anything but the fitting
      scale, whose suffix exists, for every count. */
  method FormatBytes(bytes: uint64) returns (formatted: Label)
    ensures bytes < 1024 ==> formatted == Plain(bytes)
    ensures bytes >= 1024 ==>
              formatted.Scaled? && formatted.bytes == bytes
              && exists exp :: 0 <= exp < 6 && Fits(bytes, formatted.div, exp)
                                && formatted.suffix == ["KB", "MB", "GB", "TB", "PB", "EB"][exp]
  {
    if bytes < UNIT {
      return Plain(bytes);
    }
    var div, exp := UNIT, 0;
    var n := bytes / UNIT;
    assert Pow1024(0) == 1 && Pow1024(1) == 1024;
    while n >= UNIT
      invariant div as int == Pow1024(exp + 1)
      invariant n >= 1 && n as int == bytes as int / div as int
      invariant div as int <= bytes as int
      decreases n
    {
      Rescaled(bytes as int, div as int);
      div := div * UNIT;
      exp := exp + 1;
      n := n / UNIT;
    }
    Bracketed(bytes as int, div as int);
    if exp >= 6 {
      Pow1024Grows(7, exp + 1);
      SevenIsTooMany();
      assert false;
    }
    assert Fits(bytes, div, exp);
    formatted := Scaled(bytes, div, SUFFIXES[exp]);
  }

  /** Dividing again is dividing by the larger unit, which still goes into the count. */
  lemma Rescaled(bytes: int, div: int)
    requires div > 0 && bytes / div >= 1024
    ensures 1024 * div <= bytes
    ensures bytes / div / 1024 == bytes / (1024 * div)
  {
    var q, r := bytes / div, bytes % div;
    Times(1024, q, div);
    var a, b := q / 1024, q % 1024;
    Times(b, 1023, div);
    assert q * div == a * (1024 * div) + b * div;
    QuotientIs(bytes, 1024 * div, a, b * div + r);
  }

  lemma Times(a: int, b: int, d: int)
    requires a <= b && d > 0
    ensures a * d <= b * d
  {
  }

  lemma QuotientIs(n: int, d: int, q: int, r: int)
    requires d > 0 && n == q * d + r && 0 <= r < d
    ensures n / d == q
  {
    OneQuotient(n / d, q, d, n % d, r);
  }

  lemma OneQuotient(p: int, q: int, d: int, r: int, t: int)
    requires p * d + r == q * d + t && 0 <= r < d && 0 <= t < d
    ensures p == q
  {
    if p < q {
      Times(p + 1, q, d);
    } else if q < p {
      Times(q + 1, p, d);
    }
  }

  lemma Bracketed(bytes: int, div: int)
    requires div > 0 && 1 <= bytes / div < 1024
    ensures div <= bytes < 1024 * div
  {
    Times(1, bytes / div, div);
    Times(bytes / div, 1023, div);
  }
}
