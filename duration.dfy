/** The value-level model of `Mytime`: its three magnitudes as a datatype, the
    canonical scalar (total seconds), the normal form, value equality and the
    pure operators `+`, `-`, `* n` and `/ n`, each of which rebuilds a fresh
    value `{0, 0, total}` and normalizes it. */
module Duration {

  /** The fields of a `Mytime`. No range check: `Hms(0, 0, 5025)` is a legal value. */
  datatype Hms = Hms(hour: nat, minute: nat, second: nat)

  /** The outcome of an operation that may abort with a panic. */
  datatype Outcome<T> = Done(value: T) | Panic(message: string)

  const Zero := Hms(0, 0, 0)

  /** The message of the panic raised by scalar division by zero. */
  const DivideByZeroMessage := "Cannot divide by zero-valued `Mytime`!"

  /** `total_seconds`: the canonical scalar. `TotalDecodes` reads a normal
      value back from it. */
  function Total(t: Hms): nat {
    var Hms(hour, minute, second) := t;
    hour * 3600 + minute * 60 + second
  }

  /** Normal form: minute and second below 60, hour unbounded. */
  predicate IsNormal(t: Hms) {
    t.minute < 60 && t.second < 60
  }

  /** `normalize`: carry seconds into minutes, then minutes into hours. */
  function Normalized(t: Hms): (r: Hms)
    ensures IsNormal(r)
    ensures r.hour >= t.hour
  {
    var minute := t.minute + t.second / 60;
    Hms(t.hour + minute / 60, minute % 60, t.second % 60)
  }

  /** The normalized value with a given total: the reference definition that
      every operator result is compared with. */
  function Canonical(total: nat): (r: Hms)
    ensures IsNormal(r) && Total(r) == total
  {
    Hms(total / 3600, total / 60 % 60, total % 60)
  }

  /** Normalizing keeps the total number of seconds. */
  lemma {:induction false} NormalizePreservesTotal(t: Hms)
    ensures Total(Normalized(t)) == Total(t)
  {
    var minute := t.minute + t.second / 60;
    assert t.second == t.second / 60 * 60 + t.second % 60;
    assert minute == minute / 60 * 60 + minute % 60;
  }

  /** A normal value reads back from its total field by field: `Canonical`
      inverts `Total` on normal values. */
  lemma {:induction false} TotalDecodes(t: Hms)
    requires IsNormal(t)
    ensures Canonical(Total(t)) == t
  {
    NormalFormUnique(Canonical(Total(t)), t);
  }

  /** A normal form is determined by its total. */
  lemma {:induction false} NormalFormUnique(a: Hms, b: Hms)
    requires IsNormal(a) && IsNormal(b) && Total(a) == Total(b)
    ensures a == b
  {
    if a.hour < b.hour {
    } else if b.hour < a.hour {
    }
  }

  /** Normalizing any layout gives the canonical value of its total. */
  lemma {:induction false} NormalizedIsCanonical(t: Hms)
    ensures Normalized(t) == Canonical(Total(t))
  {
    NormalizePreservesTotal(t);
    NormalFormUnique(Normalized(t), Canonical(Total(t)));
  }

  /** Normalizing a value already in normal form changes no field; hence
      normalizing twice is normalizing once. */
  lemma {:induction false} NormalizeIdempotent(t: Hms)
    ensures IsNormal(t) ==> Normalized(t) == t
    ensures Normalized(Normalized(t)) == Normalized(t)
  {
    if IsNormal(t) {
      NormalizePreservesTotal(t);
      NormalFormUnique(Normalized(t), t);
    }
    NormalizePreservesTotal(Normalized(t));
    NormalFormUnique(Normalized(Normalized(t)), Normalized(t));
  }

  /** Normalizing a bare number of seconds gives its canonical value. */
  lemma {:induction false} NormalizeSeconds(seconds: nat)
    ensures Normalized(Hms(0, 0, seconds)) == Canonical(seconds)
  {
    var t := Hms(0, 0, seconds);
    assert Total(t) == seconds;
    NormalizedIsCanonical(t);
  }

  /** Two layouts with the same total normalize to the same fields. */
  lemma {:induction false} SameTotalSameNormalForm(a: Hms, b: Hms)
    requires Total(a) == Total(b)
    ensures Normalized(a) == Normalized(b)
  {
    NormalizedIsCanonical(a);
    NormalizedIsCanonical(b);
  }

  /** `PartialEq::eq`: equality of total seconds, which holds exactly when the
      two values have the same normal form, whatever their field layouts. */
  function Equal(a: Hms, b: Hms): (r: bool)
    ensures r <==> Normalized(a) == Normalized(b)
  {
    NormalizedIsCanonical(a);
    NormalizedIsCanonical(b);
    Total(a) == Total(b)
  }

  /** `a + b`: the normalized value whose total is the sum of the totals. */
  function Add(a: Hms, b: Hms): (r: Hms)
    ensures IsNormal(r) && Total(r) == Total(a) + Total(b)
  {
    NormalizeSeconds(Total(a) + Total(b));
    Normalized(Hms(0, 0, Total(a) + Total(b)))
  }

  /** `a - b`: the normalized absolute difference of the totals; it never underflows. */
  function Sub(a: Hms, b: Hms): (r: Hms)
    ensures IsNormal(r)
    ensures Total(a) == Total(b) + Total(r) || Total(b) == Total(a) + Total(r)
  {
    var s := Total(a);
    var o := Total(b);
    NormalizeSeconds(if s >= o then s - o else o - s);
    if s >= o then Normalized(Hms(0, 0, s - o)) else Normalized(Hms(0, 0, o - s))
  }

  /** `a * n`: the normalized value whose total is `n` times the total of `a`. */
  function Mul(a: Hms, n: nat): (r: Hms)
    ensures IsNormal(r) && Total(r) == Total(a) * n
  {
    NormalizeSeconds(Total(a) * n);
    Normalized(Hms(0, 0, Total(a) * n))
  }

  /** `a / n`: panics when `n` is 0; otherwise the normalized value whose total
      is the floor of the total of `a` divided by `n`. */
  function Div(a: Hms, n: nat): (r: Outcome<Hms>)
    ensures r.Panic? <==> n == 0
    ensures r.Panic? ==> r.message == DivideByZeroMessage
    ensures r.Done? ==> IsNormal(r.value)
    ensures r.Done? ==> Total(r.value) * n <= Total(a) < (Total(r.value) + 1) * n
  {
    if n == 0 then
      Panic(DivideByZeroMessage)
    else
      NormalizeSeconds(Total(a) / n);
      Done(Normalized(Hms(0, 0, Total(a) / n)))
  }

  /** The sum is the canonical value of the summed totals:
      hour = T / 3600, minute = T / 60 % 60, second = T % 60. */
  lemma {:induction false} AddIsCanonical(a: Hms, b: Hms)
    ensures Add(a, b) == Canonical(Total(a) + Total(b))
  {
    NormalFormUnique(Add(a, b), Canonical(Total(a) + Total(b)));
  }

  /** Adding a zero-valued duration (such as `Zero`) gives the normal form of
      the other operand, which is equal to it. */
  lemma {:induction false} AddZero(x: Hms, zero: Hms)
    requires Total(zero) == 0
    ensures Add(x, zero) == Normalized(x)
    ensures Equal(Add(x, zero), x)
  {
    AddIsCanonical(x, zero);
    NormalizedIsCanonical(x);
    NormalizeIdempotent(x);
  }

  /** Addition is commutative and associative, field for field. */
  lemma {:induction false} AddCommutesAssociates(a: Hms, b: Hms, c: Hms)
    ensures Add(a, b) == Add(b, a)
    ensures Add(Add(a, b), c) == Add(a, Add(b, c))
  {
    NormalFormUnique(Add(a, b), Add(b, a));
    NormalFormUnique(Add(Add(a, b), c), Add(a, Add(b, c)));
  }

  /** The difference is the canonical value of the absolute difference of the totals. */
  lemma {:induction false} SubIsCanonical(a: Hms, b: Hms)
    ensures Sub(a, b) == Canonical(if Total(a) >= Total(b) then Total(a) - Total(b) else Total(b) - Total(a))
  {
    NormalFormUnique(Sub(a, b), Canonical(if Total(a) >= Total(b) then Total(a) - Total(b) else Total(b) - Total(a)));
  }

  /** Subtraction is symmetric: the operand order does not matter. */
  lemma {:induction false} SubSymmetric(a: Hms, b: Hms)
    ensures Sub(a, b) == Sub(b, a)
  {
    NormalFormUnique(Sub(a, b), Sub(b, a));
  }

  /** Subtracting the smaller duration and adding it back gives the larger. */
  lemma {:induction false} SubThenAdd(a: Hms, b: Hms)
    requires Total(b) <= Total(a)
    ensures Total(Sub(a, b)) == Total(a) - Total(b)
    ensures Equal(Add(Sub(a, b), b), a)
  {
    NormalizedIsCanonical(Add(Sub(a, b), b));
    NormalizedIsCanonical(a);
  }

  /** The total of a layout whose fields are each scaled by `n` is the total
      scaled by `n`. */
  lemma {:induction false} ScaledTotal(t: Hms, n: nat)
    ensures Total(Hms(t.hour * n, t.minute * n, t.second * n)) == Total(t) * n
  {
    calc {
      Total(Hms(t.hour * n, t.minute * n, t.second * n));
      t.hour * n * 3600 + t.minute * n * 60 + t.second * n;
      { assert t.hour * n * 3600 == t.hour * 3600 * n;
        assert t.minute * n * 60 == t.minute * 60 * n; }
      t.hour * 3600 * n + t.minute * 60 * n + t.second * n;
      (t.hour * 3600 + t.minute * 60 + t.second) * n;
    }
  }

  /** The product is the canonical value of the scaled total. */
  lemma {:induction false} MulIsCanonical(a: Hms, n: nat)
    ensures Mul(a, n) == Canonical(Total(a) * n)
  {
    NormalFormUnique(Mul(a, n), Canonical(Total(a) * n));
  }

  /** Multiplying by 1 normalizes; multiplying by `n + 1` is multiplying by
      `n` and adding the operand once more. */
  lemma {:induction false} MulIsRepeatedAdd(a: Hms, n: nat)
    ensures Mul(a, 1) == Normalized(a)
    ensures Mul(a, n + 1) == Add(Mul(a, n), a)
  {
    NormalizedIsCanonical(a);
    NormalFormUnique(Mul(a, 1), Canonical(Total(a)));
    assert Total(a) * (n + 1) == Total(a) * n + Total(a);
    NormalFormUnique(Mul(a, n + 1), Add(Mul(a, n), a));
  }

  /** Scaling twice is scaling by the product. */
  lemma {:induction false} MulAssociates(a: Hms, n: nat, k: nat)
    ensures Mul(Mul(a, n), k) == Mul(a, n * k)
  {
    NatMulAssoc(Total(a), n, k);
    NormalFormUnique(Mul(Mul(a, n), k), Mul(a, n * k));
  }

  /** Associativity of multiplication on plain numbers, kept apart so that
      the operator proofs see it as one small fact. */
  lemma NatMulAssoc(x: nat, y: nat, z: nat)
    ensures x * y * z == x * (y * z)
  {
  }

  lemma {:induction false} MulMonotone(a: nat, b: nat, d: nat)
    requires a <= b
    ensures a * d <= b * d
  {
    assert b * d == a * d + (b - a) * d;
  }

  /** Euclidean division is characterised by its bounds. */
  lemma {:induction false} FloorUnique(x: nat, d: nat, q: nat)
    requires d > 0 && q * d <= x < (q + 1) * d
    ensures x / d == q
  {
    var p := x / d;
    assert p * d <= x < p * d + d;
    if p > q {
      MulMonotone(q + 1, p, d);
      assert false;
    } else if p < q {
      MulMonotone(p + 1, q, d);
      assert false;
    }
  }

  /** Euclidean division: the quotient times the divisor is at most the
      dividend, and one more would exceed it. */
  lemma {:induction false} FloorBounds(x: nat, d: nat)
    requires d > 0
    ensures x / d * d <= x < (x / d + 1) * d
  {
    assert x == x / d * d + x % d;
  }

  /** Flooring twice is flooring once by the product of the divisors. */
  lemma {:induction false} FloorOfFloor(x: nat, n: nat, k: nat)
    requires n > 0 && k > 0
    ensures x / n / k == x / (n * k)
  {
    var y := x / n;
    var z := y / k;
    FloorBounds(x, n);
    FloorBounds(y, k);
    assert z * (n * k) <= x by {
      MulMonotone(z * k, y, n);
      NatMulAssoc(z, k, n);
    }
    assert x < (z + 1) * (n * k) by {
      MulMonotone(y + 1, (z + 1) * k, n);
      NatMulAssoc(z + 1, k, n);
    }
    FloorUnique(x, n * k, z);
  }

  /** The total of a quotient is the floored quotient of the total. */
  lemma {:induction false} DivTotal(a: Hms, n: nat)
    requires n != 0
    ensures Total(Div(a, n).value) == Total(a) / n
  {
    FloorUnique(Total(a), n, Total(Div(a, n).value));
  }

  /** Division panics on 0 and is otherwise the canonical value of the
      floored quotient of the total. */
  lemma {:induction false} DivIsCanonical(a: Hms, n: nat)
    ensures Div(a, n) == if n == 0 then Panic(DivideByZeroMessage) else Done(Canonical(Total(a) / n))
  {
    if n != 0 {
      DivTotal(a, n);
      NormalFormUnique(Div(a, n).value, Canonical(Total(a) / n));
    }
  }

  /** Dividing by `n`, then by `k`, is dividing by `n * k`. */
  lemma {:induction false} DivThenDiv(a: Hms, n: nat, k: nat)
    requires n != 0 && k != 0
    ensures Div(Div(a, n).value, k) == Div(a, n * k)
  {
    var y := Div(a, n).value;
    DivTotal(a, n);
    DivTotal(y, k);
    DivTotal(a, n * k);
    FloorOfFloor(Total(a), n, k);
    NormalFormUnique(Div(y, k).value, Div(a, n * k).value);
  }

  /** Dividing a product by the same non-zero factor gives back the normal
      form of the operand. */
  lemma {:induction false} DivUndoesMul(a: Hms, n: nat)
    requires n != 0
    ensures Div(Mul(a, n), n) == Done(Normalized(a))
  {
    var q := Div(Mul(a, n), n).value;
    FloorUnique(Total(a) * n, n, Total(q));
    assert Total(a) * n < (Total(a) + 1) * n;
    FloorUnique(Total(a) * n, n, Total(a));
    NormalizePreservesTotal(a);
    NormalFormUnique(q, Normalized(a));
  }

  /** The totals test: `{1, 23, 45}` has 5025 seconds and `{0, 0, 0}` none. */
  lemma TotalExample()
    ensures Total(Hms(1, 23, 45)) == 3600 + 23 * 60 + 45 && Total(Zero) == 0
  {
  }

  /** The equality and normalization tests: `{0, 0, 5025}` equals and
      normalizes to `{1, 23, 45}`. */
  lemma NormalizeExample()
    ensures Equal(Hms(0, 0, 5025), Hms(1, 23, 45)) && Normalized(Hms(0, 0, 5025)) == Hms(1, 23, 45)
  {
  }

  /** The equality test: `{1, 23, 45}` differs from `{0, 0, 0}`, `{1, 0, 0}`
      and `{1, 23, 0}`. */
  lemma InequalityExample()
    ensures !Equal(Hms(1, 23, 45), Zero) && !Equal(Hms(1, 23, 45), Hms(1, 0, 0))
    ensures !Equal(Hms(1, 23, 45), Hms(1, 23, 0))
  {
  }

  /** The addition test: adding zero, and doubling `{1, 23, 45}`. */
  lemma AddZeroExample()
    ensures Add(Hms(1, 23, 45), Zero) == Hms(1, 23, 45)
  {
  }

  lemma AddExample()
    ensures Add(Hms(1, 23, 45), Hms(1, 23, 45)) == Hms(2, 47, 30)
  {
  }

  /** The multiplication test: `* 2`, then `* 3`. */
  lemma MulExample()
    ensures Mul(Hms(1, 23, 45), 2) == Hms(2, 47, 30)
  {
  }

  lemma MulAgainExample()
    ensures Mul(Hms(2, 47, 30), 3) == Hms(8, 22, 30)
  {
  }

  /** The subtraction test, in either operand order. */
  lemma SubExample()
    ensures Sub(Hms(4, 0, 0), Hms(1, 23, 45)) == Hms(2, 36, 15)
  {
  }

  lemma SubReversedExample()
    ensures Sub(Hms(1, 23, 45), Hms(2, 36, 15)) == Hms(1, 12, 30)
  {
  }

  /** The division test: by 3, by 4 then by 2, and the panic on 0. */
  lemma DivExample()
    ensures Div(Hms(1, 23, 45), 3) == Done(Hms(0, 27, 55))
  {
  }

  lemma DivByFourExample()
    ensures Div(Hms(1, 23, 45), 4) == Done(Hms(0, 20, 56))
  {
  }

  lemma DivByTwoExample()
    ensures Div(Hms(0, 20, 56), 2) == Done(Hms(0, 10, 28))
  {
  }

  lemma DivByZeroExample()
    ensures Div(Hms(1, 23, 45), 0) == Panic(DivideByZeroMessage)
  {
  }
}
