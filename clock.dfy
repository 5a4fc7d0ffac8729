/** The `Mytime` struct as an object whose fields the `normalize` method and
    the `op=` operators update in place. Each in-place operator ends in the same
    state as the matching pure operator of `Duration` applied to the old value. */
module Clock {
  import opened Duration

  class Mytime {
    var hour: nat
    var minute: nat
    var second: nat

    /** Construction from three magnitudes, without any range check. */
    constructor (hour: nat, minute: nat, second: nat)
      ensures Value() == Hms(hour, minute, second)
    {
      this.hour := hour;
      this.minute := minute;
      this.second := second;
    }

    /** The current fields as a value. */
    function Value(): Hms
      reads this
    {
      Hms(hour, minute, second)
    }

    /** `total_seconds`. */
    function TotalSeconds(): nat
      reads this
    {
      Total(Value())
    }

    /** `normalize`: the four field updates, seconds carried before minutes. */
    method Normalize()
      modifies this
      ensures Value() == Normalized(old(Value()))
      ensures IsNormal(Value()) && TotalSeconds() == old(TotalSeconds())
    {
      NormalizePreservesTotal(Value());
      minute := minute + second / 60;
      second := second % 60;
      hour := hour + minute / 60;
      minute := minute % 60;
    }

    /** `+=`: adds the other total into `second` only, then normalizes. */
    method AddAssign(other: Hms)
      modifies this
      ensures Value() == Add(old(Value()), other)
      ensures TotalSeconds() == old(TotalSeconds()) + Total(other)
    {
      ghost var before := Value();
      second := second + Total(other);
      SameTotalSameNormalForm(Value(), Hms(0, 0, Total(before) + Total(other)));
      Normalize();
    }

    /** `-=`: replaces the fields by `{0, 0, |s - o|}`, then normalizes. */
    method SubAssign(other: Hms)
      modifies this
      ensures Value() == Sub(old(Value()), other)
      ensures TotalSeconds() + Total(other) == old(TotalSeconds())
           || old(TotalSeconds()) + TotalSeconds() == Total(other)
    {
      var s := TotalSeconds();
      var o := Total(other);
      if s >= o {
        hour := 0;
        minute := 0;
        second := s - o;
      } else {
        hour := 0;
        minute := 0;
        second := o - s;
      }
      Normalize();
    }

    /** `*=`: scales each field by `n`, then normalizes. */
    method MulAssign(n: nat)
      modifies this
      ensures Value() == Mul(old(Value()), n)
      ensures TotalSeconds() == old(TotalSeconds()) * n
    {
      ghost var before := Value();
      hour := hour * n;
      minute := minute * n;
      second := second * n;
      ScaledTotal(before, n);
      SameTotalSameNormalForm(Value(), Hms(0, 0, Total(before) * n));
      Normalize();
    }

    /** `/=`: panics, before touching any field, when `n` is 0; otherwise
        replaces the fields by `{0, 0, total / n}` and normalizes. */
    method DivAssign(n: nat) returns (outcome: Outcome<()>)
      modifies this
      ensures outcome.Panic? <==> n == 0
      ensures outcome.Panic? ==> outcome.message == DivideByZeroMessage && Value() == old(Value())
      ensures outcome.Done? ==> Div(old(Value()), n) == Done(Value())
    {
      if n == 0 {
        return Panic(DivideByZeroMessage);
      }
      var s := TotalSeconds();
      hour := 0;
      minute := 0;
      second := s / n;
      Normalize();
      outcome := Done(());
    }
  }

  /** `+=` on the values of the addition test: `{1, 23, 45} += {0, 0, 0}`
      leaves `{1, 23, 45}`. */
  method AddZeroScenario() returns (sum: Hms)
    ensures sum == Hms(1, 23, 45)
  {
    var a := new Mytime(1, 23, 45);
    ghost var before := a.Value();
    a.AddAssign(Zero);
    sum := a.Value();
    assert sum == Add(before, Zero);
    AddZeroExample();
  }

  /** `+=` on the values of the addition test: `{1, 23, 45} += {1, 23, 45}`
      gives `{2, 47, 30}`. */
  method AddScenario() returns (sum: Hms)
    ensures sum == Hms(2, 47, 30)
  {
    var a := new Mytime(1, 23, 45);
    ghost var before := a.Value();
    a.AddAssign(Hms(1, 23, 45));
    sum := a.Value();
    assert sum == Add(before, Hms(1, 23, 45));
    AddExample();
  }

  /** `*=` on the values of the multiplication test: `{1, 23, 45} *= 2` gives
      `{2, 47, 30}`. */
  method MulScenario() returns (product: Hms)
    ensures product == Hms(2, 47, 30)
  {
    var a := new Mytime(1, 23, 45);
    ghost var before := a.Value();
    a.MulAssign(2);
    product := a.Value();
    assert product == Mul(before, 2);
    MulExample();
  }

  /** `-=` on the values of the subtraction test: `{4, 0, 0} -= {1, 23, 45}`
      gives `{2, 36, 15}`. */
  method SubScenario() returns (difference: Hms)
    ensures difference == Hms(2, 36, 15)
  {
    var a := new Mytime(4, 0, 0);
    ghost var before := a.Value();
    a.SubAssign(Hms(1, 23, 45));
    difference := a.Value();
    assert difference == Sub(before, Hms(1, 23, 45));
    SubExample();
  }

  /** `-=` with the larger operand on the right: `{1, 23, 45} -= {2, 36, 15}`
      gives `{1, 12, 30}`. */
  method SubReversedScenario() returns (difference: Hms)
    ensures difference == Hms(1, 12, 30)
  {
    var a := new Mytime(1, 23, 45);
    ghost var before := a.Value();
    a.SubAssign(Hms(2, 36, 15));
    difference := a.Value();
    assert difference == Sub(before, Hms(2, 36, 15));
    SubReversedExample();
  }

  /** `/=` on the value of the division test: `{1, 23, 45} /= 4` floors to
      `{0, 20, 56}`. */
  method DivScenario() returns (outcome: Outcome<()>, quotient: Hms)
    ensures outcome.Done? && quotient == Hms(0, 20, 56)
  {
    var a := new Mytime(1, 23, 45);
    ghost var before := a.Value();
    outcome := a.DivAssign(4);
    quotient := a.Value();
    assert Div(before, 4) == Done(quotient);
    DivByFourExample();
  }

  /** `/= 2` on that quotient floors again, to `{0, 10, 28}`. */
  method DivAgainScenario() returns (outcome: Outcome<()>, quotient: Hms)
    ensures outcome.Done? && quotient == Hms(0, 10, 28)
  {
    var a := new Mytime(0, 20, 56);
    ghost var before := a.Value();
    outcome := a.DivAssign(2);
    quotient := a.Value();
    assert Div(before, 2) == Done(quotient);
    DivByTwoExample();
  }

  /** `/= 0` panics with the division message and leaves the value as it was. */
  method DivByZeroScenario() returns (outcome: Outcome<()>, kept: Hms)
    ensures outcome == Panic(DivideByZeroMessage) && kept == Hms(1, 23, 45)
  {
    var a := new Mytime(1, 23, 45);
    outcome := a.DivAssign(0);
    kept := a.Value();
  }
}
