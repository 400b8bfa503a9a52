// Remainders.
module Arithmetic {
  lemma {:induction false} AtLeastOneTime(k: nat, d: nat)
    requires k > 0
    ensures k * d >= d
  {
    if k > 1 { AtLeastOneTime(k - 1, d); }
  }

  lemma ModUnique(n: nat, d: nat, q: int, r: nat)
    requires d > 0 && n == q * d + r && r < d
    ensures n % d == r
  {
    var q', r' := n / d, n % d;
    assert n == q' * d + r';
    assert (q - q') * d == q * d - q' * d;
    assert (q' - q) * d == q' * d - q * d;
    if q > q' {
      AtLeastOneTime(q - q', d);
    } else if q < q' {
      AtLeastOneTime(q' - q, d);
    }
  }

  lemma ModStep(n: nat, d: nat)
    requires 0 < d <= n
    ensures (n - d) % d == n % d
  {
    var q, r := (n - d) / d, (n - d) % d;
    assert n - d == q * d + r;
    assert (q + 1) * d == q * d + d;
    ModUnique(n, d, q + 1, r);
  }

  lemma ModAdd(a: nat, k: nat, n: nat)
    requires n > 0
    ensures (a + k) % n == (a % n + k) % n
  {
    var q, r := a / n, a % n;
    var q', r' := (r + k) / n, (r + k) % n;
    assert a == q * n + r && r + k == q' * n + r';
    assert (q + q') * n == q * n + q' * n;
    ModUnique(a + k, n, q + q', r');
  }

  lemma ModOfMod(x: nat, d: nat, n: nat)
    requires d > 0 && n > 0 && d % n == 0
    ensures x % d % n == x % n
  {
    var q, r, e := x / d, x % d, d / n;
    assert x == q * d + r && d == e * n;
    Multiple(q, e, n, r);
  }

  lemma Multiple(q: nat, e: nat, n: nat, r: nat)
    requires n > 0
    ensures (q * (e * n) + r) % n == r % n
  {
    var q', r' := r / n, r % n;
    assert r == q' * n + r';
    assert q * (e * n) == (q * e) * n;
    assert (q * e + q') * n == (q * e) * n + q' * n;
    ModUnique(q * (e * n) + r, n, q * e + q', r');
  }

  // Counting on from c through a counter of range w: unless n divides w, a wrap within n
  // counts repeats a remainder modulo n.
  lemma WrapRepeats(c: nat, n: nat, w: nat) returns (a: nat, b: nat)
    requires n > 0 && c < w < c + n && w % n != 0
    ensures a < b < n && (c + a) % w % n == (c + b) % w % n
  {
    var wrap, rest, q := w - c, w % n, w / n;
    assert w == q * n + rest;
    if n > w {
      a, b := 0, w;
      ModUnique(c, w, 0, c);
      ModUnique(c + w, w, 1, c);
    } else {
      var common := if rest + wrap <= n then rest - 1 else n - wrap - 1;
      a, b := wrap - (rest - common), wrap + common;
      ModUnique(c + a, w, 0, c + a);
      ModUnique(c + b, w, 1, common);
      ModUnique(c + a, n, q, common);
      ModUnique(common, n, 0, common);
    }
  }

  // Without such a wrap the remainders go round.
  lemma CountingGoesRound(c: nat, k: nat, n: nat, w: nat)
    requires n > 0 && c < w && k < n && (c + n <= w || w % n == 0)
    ensures (c + k) % w % n == (c % n + k) % n
  {
    ModAdd(c, k, n);
    if c + n <= w {
      ModUnique(c + k, w, 0, c + k);
    } else {
      ModOfMod(c + k, w, n);
    }
  }
}
