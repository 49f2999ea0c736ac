/** Integer facts used by several modules. Products of two variables are written with Times,
    by repeated addition, which keeps them out of the solver's nonlinear arithmetic. */
module Arithmetic {

  function Times(a: nat, b: nat): nat { if a == 0 then 0 else Times(a - 1, b) + b }

  lemma {:induction false} TimesIsProduct(a: nat, b: nat)
    ensures Times(a, b) == a * b
  {
    if a > 0 {
      TimesIsProduct(a - 1, b);
      assert (a - 1) * b + b == a * b;
    }
  }

  lemma {:induction false} TimesMono(a: nat, c: nat, b: nat)
    requires a <= c
    ensures Times(a, b) <= Times(c, b)
    ensures a < c ==> Times(a, b) + b <= Times(c, b)
    decreases c
  {
    if a < c { TimesMono(a, c - 1, b); }
  }

  lemma {:induction false} TimesSum(a: nat, c: nat, b: nat)
    ensures Times(a + c, b) == Times(a, b) + Times(c, b)
    decreases c
  {
    if c > 0 { TimesSum(a, c - 1, b); }
  }

  lemma {:induction false} TimesTimes(a: nat, b: nat, c: nat)
    ensures Times(a, b) * c == Times(a, b * c)
  {
    if a > 0 {
      TimesTimes(a - 1, b, c);
      assert (Times(a - 1, b) + b) * c == Times(a - 1, b) * c + b * c;
    }
  }

  /** The only count of whole packets that leaves less than a packet. */
  lemma TimesUnique(a: nat, c: nat, b: nat, x: int)
    requires Times(a, b) <= x < Times(a, b) + b
    requires Times(c, b) <= x < Times(c, b) + b
    ensures a == c
  {
    if a < c { TimesMono(a, c, b); } else { TimesMono(c, a, b); }
  }

  lemma MulSmall(k: int, b: int)
    requires b >= 1
    ensures k >= 1 ==> b * k >= b
    ensures k <= -1 ==> b * k <= -b
  {
  }

  lemma MulSub(a: int, b: int, c: int)
    ensures (a - b) * c == a * c - b * c
  {
  }

  lemma MulMod(a: int, b: int)
    requires b >= 1
    ensures (a * b) % b == 0 && (a * b) / b == a
  {
    var q, r := (a * b) / b, (a * b) % b;
    assert a * b == b * q + r;
    assert b * (a - q) == r;
    MulSmall(a - q, b);
  }

  lemma ModUnique(a: int, b: int, q: int, r: int)
    requires 0 <= r < b && a == b * q + r
    ensures a / b == q && a % b == r
  {
    var q', r' := a / b, a % b;
    assert a == b * q' + r';
    assert b * (q' - q) == r - r';
    MulSmall(q' - q, b);
  }

  lemma ModExact(a: int, c: int)
    requires c >= 1 && a % c == 0
    ensures (a / c) * c == a
  {
    assert a == c * (a / c) + a % c;
  }

  lemma ModDifference(a: int, b: int, c: int)
    requires c >= 1 && a % c == 0 && b % c == 0
    ensures (a - b) % c == 0 && (a + b) % c == 0
    ensures (a - b) / c == a / c - b / c && (a + b) / c == a / c + b / c
  {
    ModExact(a, c);
    ModExact(b, c);
    var x, y := a / c, b / c;
    assert a - b == (x - y) * c && a + b == (x + y) * c;
    MulMod(x - y, c);
    MulMod(x + y, c);
  }

  /** C's integer division. */
  function TruncDiv(a: int, b: int): int
    requires b > 0
  {
    if a >= 0 then a / b else -((-a) / b)
  }

  /** Turns of a loop that takes `step` off `d` while `d` is at least `test`. */
  function Turns(d: int, test: nat, step: nat): nat
    requires step >= 1
    decreases d - test + step
  {
    if d < test then 0 else 1 + Turns(d - step, test, step)
  }

  lemma TurnsStep(d: int, test: nat, step: nat, k: nat)
    requires step >= 1 && d >= test
    ensures Turns(d, test, step) == 1 + Turns(d - step, test, step)
    ensures Times(k + 1, step) == Times(k, step) + step
  {
  }

  lemma {:induction false} TurnsBounds(d: int, test: nat, step: nat)
    requires step >= 1
    ensures d - Times(Turns(d, test, step), step) < test
    ensures Turns(d, test, step) > 0 ==> d - Times(Turns(d, test, step), step) >= test - step
    decreases d - test + step
  {
    if d >= test {
      TurnsBounds(d - step, test, step);
      assert Times(Turns(d, test, step), step) == Times(Turns(d - step, test, step), step) + step;
    }
  }

  /** With test and step the same, the turns are the quotient and what is left the remainder. */
  lemma {:induction false} TurnsIsQuotient(d: nat, step: nat)
    requires step >= 1
    ensures Turns(d, step, step) == d / step
    ensures d - Times(Turns(d, step, step), step) == d % step
  {
    TurnsBounds(d, step, step);
    var n := Turns(d, step, step);
    TimesIsProduct(n, step);
    var r := d - n * step;
    assert n == 0 ==> r == d;
    var q := d / step;
    assert d == step * q + d % step;
    assert step * (q - n) == r - d % step;
    MulSmall(q - n, step);
  }

  /** Whole packets of P bytes in x bytes, and the bytes left over. */
  function Packs(x: nat, P: nat): nat
    requires P >= 1
  {
    Turns(x, P, P)
  }

  function Rest(x: nat, P: nat): nat
    requires P >= 1
  {
    PacksRest(x, P);
    x - Times(Packs(x, P), P)
  }

  lemma PacksRest(x: nat, P: nat)
    requires P >= 1
    ensures Times(Packs(x, P), P) <= x < Times(Packs(x, P), P) + P
  {
    TurnsBounds(x, P, P);
  }

  lemma PacksUnique(x: nat, n: nat, rest: nat, P: nat)
    requires Times(n, P) + rest == x && rest < P
    ensures n == Packs(x, P) && rest == Rest(x, P)
  {
    PacksRest(x, P);
    TimesUnique(n, Packs(x, P), P, x);
  }
}
