# time-calculator in Dafny

A model of `Mytime`, the hour/minute/second duration of the time-calculator
crate, and of its arithmetic. A `Mytime` holds three unsigned magnitudes with
no range check. Equality goes through its total number of seconds
(`hour * 3600 + minute * 60 + second`). The by-value operators `+`, `-`,
`* n` and `/ n` build a fresh `{0, 0, result}` from the totals. `-=` and `/=`
overwrite the fields with that layout, `+=` adds the operand's total into
`second`, and `*=` scales each field. Each then normalizes, carrying seconds
into minutes and minutes into hours. Scalar division by zero panics with
"Cannot divide by zero-valued `Mytime`!".

The project has three modules:

- `Duration` (`duration.dfy`): the value-level model. `Hms` is the three
  fields, `Total` is `total_seconds`, `Normalized` is `normalize`, `Equal` is
  `==`, and `Add`, `Sub`, `Mul` and `Div` are the by-value operators. A panic
  is the `Panic` case of an `Outcome` result. `Canonical(T)` is the reference
  normal form `(T / 3600, T / 60 % 60, T % 60)`. `normalize` and each of
  `+`, `-`, `* n` and `/ n` are proved to return the canonical value of the
  total they promise.
- `Display` (`display.dfy`): the `HH:MM:SS` rendering, each field
  zero-padded to at least two digits and printed as stored, without
  normalizing first.
- `Clock` (`clock.dfy`): `Mytime` as a class with mutable fields. `normalize`
  and the compound assignments `+=`, `-=`, `*=` and `/=` are methods that
  update the fields in place, step by step, as the crate does. Each method is
  proved to end in the state the matching by-value operator computes from the
  old value.

## Model

| member | source | states |
|---|---|---|
| Duration.Normalized | src/lib.rs:15-20 | the result has minute and second below 60, and the hour never decreases |
| Duration.NormalizePreservesTotal | src/lib.rs:15-20 | normalizing keeps the total number of seconds |
| Duration.Total | src/lib.rs:12-14 | the scalar `hour * 3600 + minute * 60 + second`, a definition without a contract of its own; `TotalDecodes` and `NormalFormUnique` state what it determines |
| Duration.TotalDecodes | src/lib.rs:12-14 | a normal value reads back from its total field by field: `Canonical(Total(t)) == t` |
| Duration.Canonical | src/lib.rs:12-14 | `(T / 3600, T / 60 % 60, T % 60)` is in normal form and has total `T` |
| Duration.NormalFormUnique | src/lib.rs:12-20 | two normal-form values with the same total are the same value |
| Duration.NormalizedIsCanonical | src/lib.rs:15-20 | normalizing any layout gives the canonical value of its total |
| Duration.NormalizeIdempotent | src/lib.rs:15-20 | a value already in normal form is left unchanged, so normalizing twice is normalizing once |
| Duration.NormalizeSeconds | src/lib.rs:38-43 | normalizing `{0, 0, s}` gives the canonical value of `s` |
| Duration.SameTotalSameNormalForm | src/lib.rs:15-20 | layouts with equal totals normalize to the same fields |
| Duration.Equal | src/lib.rs:23-27 | two values are equal exactly when they have the same normal form (both directions) |
| Duration.Add | src/lib.rs:35-46 | the sum is in normal form and its total is the sum of the totals |
| Duration.AddIsCanonical | src/lib.rs:35-46 | the sum is `(T / 3600, T / 60 % 60, T % 60)` for the summed total `T` |
| Duration.AddZero | src/lib.rs:35-46 | adding a zero-valued operand gives the normal form of the other operand, which is equal to it |
| Duration.AddCommutesAssociates | src/lib.rs:35-46 | addition is commutative and associative, field for field |
| Duration.Sub | src/lib.rs:55-77 | the difference is in normal form and its total is the absolute difference of the totals, so it never underflows |
| Duration.SubIsCanonical | src/lib.rs:55-77 | the difference is `Canonical` of the absolute difference of the totals |
| Duration.SubSymmetric | src/lib.rs:55-77 | `a - b` and `b - a` are the same value |
| Duration.SubThenAdd | src/lib.rs:55-77 | when `b` is no larger than `a`, `a - b` has total `a - b` and adding `b` back gives a value equal to `a` |
| Duration.Mul | src/lib.rs:96-107 | the product is in normal form and its total is `n` times the total |
| Duration.MulIsCanonical | src/lib.rs:96-107 | the product is `Canonical` of `n` times the total |
| Duration.ScaledTotal | src/lib.rs:109-116 | scaling each field by `n` scales the total by `n` |
| Duration.MulIsRepeatedAdd | src/lib.rs:96-107 | `a * 1` normalizes `a`, and `a * (n + 1)` is `a * n + a` |
| Duration.MulAssociates | src/lib.rs:96-107 | `a * n * k` is `a * (n * k)` |
| Duration.Div | src/lib.rs:118-132 | division by 0 panics with the crate's message; otherwise the quotient is in normal form and its total is the floor of the total divided by `n` |
| Duration.DivIsCanonical | src/lib.rs:118-132 | `/ 0` is the panic with the crate's message, and `/ n` for non-zero `n` is `Canonical` of the floored quotient of the total |
| Duration.DivTotal | src/lib.rs:118-132 | for a non-zero divisor, the total of the quotient is the total divided by `n`, rounded down |
| Duration.DivThenDiv | src/lib.rs:118-132 | dividing by `n` and then by `k` is dividing by `n * k` |
| Duration.DivUndoesMul | src/lib.rs:96-132 | `(a * n) / n` is the normal form of `a` for a non-zero `n` |
| Duration.TotalExample | src/lib.rs:185-190 | `{1, 23, 45}` has 5025 seconds and `{0, 0, 0}` none |
| Duration.NormalizeExample | src/lib.rs:211-220 | `{0, 0, 5025}` equals `{1, 23, 45}` and normalizes to it |
| Duration.InequalityExample | src/lib.rs:192-202 | `{1, 23, 45}` differs from `{0, 0, 0}`, `{1, 0, 0}` and `{1, 23, 0}` |
| Duration.AddZeroExample | src/lib.rs:222-226 | `{1, 23, 45} + {0, 0, 0}` is `{1, 23, 45}` |
| Duration.AddExample | src/lib.rs:227-228 | `{1, 23, 45} + {1, 23, 45}` is `{2, 47, 30}` |
| Duration.MulExample | src/lib.rs:233-236 | `{1, 23, 45} * 2` is `{2, 47, 30}` |
| Duration.MulAgainExample | src/lib.rs:237-238 | `{2, 47, 30} * 3` is `{8, 22, 30}` |
| Duration.SubExample | src/lib.rs:243-248 | `{4, 0, 0} - {1, 23, 45}` is `{2, 36, 15}` |
| Duration.SubReversedExample | src/lib.rs:249-252 | `{1, 23, 45} - {2, 36, 15}` is `{1, 12, 30}` |
| Duration.DivExample | src/lib.rs:265-266 | `{1, 23, 45} / 3` is `{0, 27, 55}` |
| Duration.DivByFourExample | src/lib.rs:267-268 | `{1, 23, 45} / 4` floors to `{0, 20, 56}`, the value `/= 4` must reach there (the crate itself never computes `/ 4`) |
| Duration.DivByTwoExample | src/lib.rs:269-270 | `{0, 20, 56} / 2` floors to `{0, 10, 28}`, the value `/= 2` must reach there (the crate itself never computes `/ 2`) |
| Duration.DivByZeroExample | src/lib.rs:272-276 | `{1, 23, 45} / 0` panics with the division message |
| Display.DigitChar | src/lib.rs:31 | a digit below 10 maps to the decimal character with that value |
| Display.Decimal | src/lib.rs:31 | the decimal text of a number is non-empty and all digits, one digit long exactly when the number is below 10, has no leading zero for a positive number, and is `0` for zero |
| Display.Pad2 | src/lib.rs:31 | `{:02}` gives at least two digits, exactly two for numbers below 100, and starts with a zero exactly when the number is below 10 (the single pad) |
| Display.DecimalRoundTrip | src/lib.rs:31 | reading back the decimal text of `n` gives `n` |
| Display.LeadingZero | src/lib.rs:31 | a leading zero does not change the number a digit string denotes |
| Display.Pad2RoundTrip | src/lib.rs:31 | reading back a padded field gives the field |
| Display.SplitAtColon | src/lib.rs:31 | `x:y` with `x` all digits splits at its first colon in only one way |
| Display.HourInjective | src/lib.rs:31 | the hour reads back from the digits before the first colon, and the rest of the text is shared |
| Display.MinuteSecondInjective | src/lib.rs:31 | the minute and second read back from their `MM:SS` text |
| Display.FormatInjective | src/lib.rs:29-33 | two values with the same text have the same fields, so equal values laid out differently render differently |
| Display.Format | src/lib.rs:29-33 | the text is at least 8 characters, and exactly 8 for a normal value whose hour is below 100 |
| Display.FormatFixtures | src/lib.rs:204-216 | `{1, 23, 45}` renders `01:23:45`, `{0, 0, 0}` renders `00:00:00`, and `{0, 0, 5025}` renders `00:00:5025` |
| Display.FormatSums | src/lib.rs:228-240 | `{2, 47, 30}` renders `02:47:30` and `{8, 22, 30}` renders `08:22:30` |
| Display.FormatDifferences | src/lib.rs:248-256 | `{2, 36, 15}` renders `02:36:15` and `{1, 12, 30}` renders `01:12:30` |
| Display.FormatQuotients | src/lib.rs:266-270 | the quotients render `00:27:55`, `00:20:56` and `00:10:28` |
| Clock.Mytime.constructor | src/lib.rs:5-9 | the object holds exactly the given fields, unchecked |
| Clock.Mytime.TotalSeconds | src/lib.rs:12-14 | `total_seconds` on the object's current fields, defined as `Total` of its value without a contract of its own |
| Clock.Mytime.Normalize | src/lib.rs:15-20 | the four in-place field updates produce `Normalized` of the old fields, in normal form, with the total kept |
| Clock.Mytime.AddAssign | src/lib.rs:48-53 | adding into `second` and normalizing ends in `old + other`, so `+=` agrees with `+` |
| Clock.Mytime.SubAssign | src/lib.rs:79-94 | the in-place update ends in `old - other`, with total the absolute difference, so `-=` agrees with `-` |
| Clock.Mytime.MulAssign | src/lib.rs:109-116 | scaling each field and normalizing ends in `old * n`, with total `n` times the old one, so `*=` agrees with `*` |
| Clock.Mytime.DivAssign | src/lib.rs:141-152 | `/= 0` panics with the crate's message before touching any field; otherwise the object ends in `old / n`, so `/=` agrees with `/` |
| Clock.AddZeroScenario | src/lib.rs:48-53 | `{1, 23, 45} += {0, 0, 0}` leaves `{1, 23, 45}`, on the values the addition test (src/lib.rs:222-226) gives to `+` |
| Clock.AddScenario | src/lib.rs:227-230 | `{1, 23, 45} += {1, 23, 45}` gives `{2, 47, 30}` |
| Clock.MulScenario | src/lib.rs:239-240 | `{1, 23, 45} *= 2` gives `{2, 47, 30}` |
| Clock.SubScenario | src/lib.rs:253-254 | `{4, 0, 0} -= {1, 23, 45}` gives `{2, 36, 15}` |
| Clock.SubReversedScenario | src/lib.rs:255-256 | `{1, 23, 45} -= {2, 36, 15}` gives `{1, 12, 30}` |
| Clock.DivScenario | src/lib.rs:267-268 | `{1, 23, 45} /= 4` does not panic and gives `{0, 20, 56}` |
| Clock.DivAgainScenario | src/lib.rs:269-270 | `{0, 20, 56} /= 2` does not panic and gives `{0, 10, 28}` |
| Clock.DivByZeroScenario | src/lib.rs:141-145 | `/= 0` panics with the division message and leaves the value unchanged |

## Left out

- `Div for Mytime`, the `Mytime / Mytime` ratio (src/lib.rs:134-139), is not modelled. It returns an `f32`, and the model has no floating point. Its test value 4.1875 (src/lib.rs:263-264) is not covered either.
- Fields and totals are unbounded naturals, not `usize`. The model does not capture arithmetic overflow: in debug builds it panics, and in release builds it wraps. This applies to every addition and multiplication on fields and totals: `total_seconds`, `+`, `+=`, `*`, `*=`, and the carries `normalize` adds into `minute` and `hour`.
- A panic is modelled as the `Panic` value of an `Outcome` result, not as unwinding. `Div` and `DivAssign` return it instead of aborting, and `DivAssign` leaves the fields untouched in that case.
- `Display.Format` returns a string. The `Formatter` and its `fmt::Result` are not modelled.
- The right-hand operand of `+=` and `-=` is passed as an `Hms` value, where Rust moves in a `Mytime`. Both operators read only that operand's `total_seconds`, before they change or normalize anything (src/lib.rs:50, 82).
- `Clone`, `Debug` and the rstest fixture machinery are not modelled. The tests' concrete values appear as the `*Example` lemmas, the `Format*` lemmas and the `Clock.*Scenario` methods.
