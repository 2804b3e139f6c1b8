/** Division with remainder, for arithmetic modulo the number of nodes and for digits. */
module Division {

  /** h is q full rounds of n and `rest` more. */
  ghost predicate IsRemainder(h: int, n: int, rest: int, q: int) {
    h == q * n + rest && 0 <= rest < n
  }

  lemma Distributes(a: int, b: int, n: int)
    ensures (a + b) * n == a * n + b * n && (a - b) * n == a * n - b * n
  {
  }

  lemma AtLeastOne(d: int, n: int)
    requires d >= 1 && n >= 0
    ensures d * n >= n
  {
    Distributes(d, 1, n);
    assert (d - 1) * n >= 0;
  }

  lemma RoundsApart(q: int, q': int, n: int)
    requires n > 0 && q < q'
    ensures q * n + n <= q' * n
  {
    Distributes(q', q, n);
    AtLeastOne(q' - q, n);
  }

  /** There is only one remainder, and one quotient. */
  lemma RemainderIsUnique(h: int, n: int, rest: int, rest': int, q: int, q': int)
    requires IsRemainder(h, n, rest, q) && IsRemainder(h, n, rest', q')
    ensures rest == rest' && q == q'
  {
    if q < q' {
      RoundsApart(q, q', n);
    } else if q' < q {
      RoundsApart(q', q, n);
    }
  }

  lemma DivisionGives(h: nat, n: nat)
    requires n > 0
    ensures IsRemainder(h, n, h % n, h / n)
  {
  }

  lemma Regroup(a: int, b: int, c: int)
    ensures (a * b) * c == a * (b * c)
  {
  }

  /** Dividing twice is dividing by the product. */
  lemma DivideTwice(h: nat, a: nat, b: nat)
    requires a > 0 && b > 0
    ensures a * b > 0 && (h / a) / b == h / (a * b)
  {
    var v, w := h / a, h % a;
    var q, s := v / b, v % b;
    DivisionGives(h, a);
    DivisionGives(v, b);
    AtLeastOne(a, b);
    DivisionGives(h, a * b);
    TwoSteps(h, a, b, v, w, q, s);
    hide IsRemainder;
    RemainderIsUnique(h, a * b, h % (a * b), s * a + w, h / (a * b), q);
  }

  lemma TwoSteps(h: int, a: int, b: int, v: int, w: int, q: int, s: int)
    requires IsRemainder(h, a, w, v) && IsRemainder(v, b, s, q)
    ensures IsRemainder(h, a * b, s * a + w, q)
  {
    Distributes(q * b, s, a);
    Regroup(q, b, a);
    RoundsApart(s, b, a);
    assert 0 <= s * a;
  }

  /** x and y are d times n apart. */
  ghost predicate IsApart(x: int, y: int, n: int, d: int) {
    x - y == d * n
  }

  /** Numbers leave the same rest exactly if n divides their difference. */
  lemma SameRemainder(h: int, h': int, n: int, rest: int, rest': int, q: int, q': int)
    requires IsRemainder(h, n, rest, q) && IsRemainder(h', n, rest', q')
    ensures rest == rest' <==> exists d :: IsApart(h, h', n, d)
  {
    if rest == rest' {
      Distributes(q, q', n);
      assert IsApart(h, h', n, q - q');
    }
    if d :| IsApart(h, h', n, d) {
      Distributes(q', d, n);
      assert IsRemainder(h, n, rest', q' + d);
      RemainderIsUnique(h, n, rest, rest', q, q' + d);
    }
  }
}
