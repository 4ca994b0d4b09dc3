/** Powers and quotients. */
module Division {
  function Power(base: nat, i: nat): nat {
    if i == 0 then 1 else base * Power(base, i - 1)
  }

  lemma DigitShifts(base: nat, v: nat, i: nat)
    requires base > 0 && Power(base, i) > 0
    ensures Power(base, i + 1) > 0 && v / Power(base, i + 1) == (v / base) / Power(base, i)
  {
    var p, q := Power(base, i), v / base;
    assert base * p > 0;
    QuotientOfQuotient(v, base, p);
  }

  lemma Products(a: nat, b: nat, t: nat, u: nat)
    ensures a * (b * t + u) == (a * b) * t + a * u
  {
    Associates(a, b, t);
    Distributes(a, b * t, u);
  }

  lemma Associates(a: nat, b: nat, c: nat)
    ensures (a * b) * c == a * (b * c)
  {
  }

  lemma Distributes(a: nat, x: nat, y: nat)
    ensures a * (x + y) == a * x + a * y
  {
  }

  lemma OneLess(a: nat, u: nat, b: nat)
    requires u < b
    ensures a * u + a <= a * b
  {
    Distributes(a, u, 1);
    Distributes(a, u + 1, b - u - 1);
  }

  lemma Positive(a: nat, b: nat)
    requires a > 0 && b > 0
    ensures a * b > 0
  {
  }

  lemma QuotientOfQuotient(v: nat, a: nat, b: nat)
    requires a > 0 && b > 0
    ensures a * b > 0 && v / (a * b) == (v / a) / b
  {
    var q, r := v / a, v % a;
    var t, u := q / b, q % b;
    Positive(a, b);
    Parts(v, a);
    Parts(q, b);
    Products(a, b, t, u);
    OneLess(a, u, b);
    QuotientIs(v, a * b, t, a * u + r);
  }

  lemma Parts(v: nat, d: nat)
    requires d > 0
    ensures v == d * (v / d) + v % d && v % d < d
  {
  }

  lemma QuotientIs(v: nat, d: nat, t: nat, r: nat)
    requires d > 0 && v == d * t + r && r < d
    ensures v / d == t
  {
    var q := v / d;
    Parts(v, d);
    if q < t {
      OneLess(d, q, t);
    } else if t < q {
      OneLess(d, t, q);
    }
  }
}
