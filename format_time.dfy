/**
 * `formatTime` of `src/utils/formatTime.ts` (the branch without `toNow`): split a duration in
 * milliseconds into years, days, hours, minutes and seconds and print the non-zero parts.
 *
 * The source divides as floating-point numbers and applies `Math.floor` and JavaScript's `%`
 * (whose result takes the sign of the dividend). Here the same steps are taken on exact reals.
 */
module FormatTime {
  import opened Wrappers

  const MS_PER_SECOND: int := 1000
  const MS_PER_MINUTE: int := 1000 * 60
  const MS_PER_HOUR: int := 1000 * 60 * 60
  const MS_PER_DAY: int := 1000 * 60 * 60 * 24
  const MS_PER_YEAR: int := 1000 * 60 * 60 * 24 * 365

  /** Rounding toward zero. */
  function Trunc(x: real): int {
    if x >= 0.0 then x.Floor else -((-x).Floor)
  }

  /** JavaScript's `x % y` on numbers: `x - y * trunc(x / y)`. */
  function JsRem(x: real, y: real): real
    requires y != 0.0
  {
    x - y * Trunc(x / y) as real
  }

  /** The parts of a duration, as the source computes them. */
  datatype Parts = Parts(years: int, days: int, hours: int, minutes: int, seconds: int)

  /**
   * The five `Math.floor(...)` lines of `formatTime`. For a non-negative duration the floors of the
   * floating-point quotients are whole-number quotients and remainders.
   */
  function Decompose(time: int): (p: Parts)
    ensures time >= 0 ==>
              p.years == time / MS_PER_YEAR &&
              p.days == time / MS_PER_DAY - 365 * p.years &&
              p.hours == (time / MS_PER_HOUR) % 24 &&
              p.minutes == (time / MS_PER_MINUTE) % 60 &&
              p.seconds == (time / MS_PER_SECOND) % 60
  {
    var t := time as real;
    var years := (t / MS_PER_YEAR as real).Floor;
    var p := Parts(
      years,
      (t / MS_PER_DAY as real - (years * 365) as real).Floor,
      JsRem(t / MS_PER_HOUR as real, 24.0).Floor,
      JsRem(t / MS_PER_MINUTE as real, 60.0).Floor,
      JsRem(t / MS_PER_SECOND as real, 60.0).Floor);
    if time < 0 then p
    else
      FloorOfQuotient(time, MS_PER_YEAR);
      FloorOfQuotient(time, MS_PER_DAY);
      FloorShift(t / MS_PER_DAY as real, 365, years);
      FloorOfRemainder(time, MS_PER_HOUR, 24);
      FloorOfRemainder(time, MS_PER_MINUTE, 60);
      FloorOfRemainder(time, MS_PER_SECOND, 60);
      p
  }

  lemma MulAtLeast(k: int, d: int)
    requires k >= 1 && d > 0
    ensures k * d >= d
  {
    var j := k - 1;
    assert k * d == j * d + d;
    assert j * d >= 0;
  }

  lemma MulNonneg(a: int, b: int)
    requires a >= 0 && b >= 0
    ensures a * b >= 0
  {
  }

  /** Integer division is determined by a quotient and a remainder within bounds. */
  lemma DivUnique(n: int, d: int, q: int, r: int)
    requires d > 0 && 0 <= r < d && n == q * d + r
    ensures n / d == q && n % d == r
  {
    var q', r' := n / d, n % d;
    assert n == q' * d + r';
    assert q * d - q' * d == r' - r;
    assert (q - q') * d == q * d - q' * d;
    if q > q' { MulAtLeast(q - q', d); }
    if q < q' { MulAtLeast(q' - q, d); }
  }

  /** Dividing by `unit` and then by `base` is dividing by their product. */
  lemma DivDiv(n: int, unit: int, base: int)
    requires n >= 0 && unit > 0 && base > 0
    ensures n / unit / base == n / (unit * base)
    ensures (n / unit) % base == n / unit - base * (n / (unit * base))
  {
    var q1, r1 := n / unit, n % unit;
    var q2, r2 := q1 / base, q1 % base;
    assert n == q1 * unit + r1;
    assert q1 == q2 * base + r2;
    assert q1 * unit == q2 * (unit * base) + r2 * unit by {
      assert q1 * unit == (q2 * base + r2) * unit;
      assert (q2 * base + r2) * unit == q2 * base * unit + r2 * unit;
      assert q2 * base * unit == q2 * (unit * base);
    }
    assert r2 * unit <= (base - 1) * unit by {
      assert (base - 1) * unit - r2 * unit == (base - 1 - r2) * unit;
      MulNonneg(base - 1 - r2, unit);
    }
    assert (base - 1) * unit == unit * base - unit;
    DivUnique(n, unit * base, q2, r2 * unit + r1);
  }

  /** A remainder divided by its positive divisor lies in [0, 1). */
  lemma RealQuotientBounds(r: int, u: int)
    requires 0 <= r < u
    ensures 0.0 <= r as real / u as real < 1.0
  {
    var x := r as real / u as real;
    assert x * u as real == r as real;
  }

  /** For a whole number and a positive whole unit, the floor of the real quotient is the integer quotient. */
  lemma FloorOfQuotient(n: int, unit: int)
    requires unit > 0
    ensures (n as real / unit as real).Floor == n / unit
  {
    var q, r := n / unit, n % unit;
    assert n == q * unit + r;
    RealQuotientBounds(r, unit);
    var f := r as real / unit as real;
    assert n as real / unit as real == q as real + f by {
      assert (q * unit) as real == q as real * unit as real;
      assert (q as real + f) * unit as real == q as real * unit as real + f * unit as real;
    }
  }

  /**
   * For a non-negative duration, `Math.floor((time / unit) % base)` is the integer quotient by
   * `unit`, taken modulo `base`.
   */
  lemma FloorOfRemainder(time: int, unit: int, base: int)
    requires time >= 0 && unit > 0 && base > 0
    ensures JsRem(time as real / unit as real, base as real).Floor == (time / unit) % base
  {
    var x := time as real / unit as real;
    TruncOfNestedQuotient(time, unit, base);
    FloorOfQuotient(time, unit);
    FloorShift(x, base, time / (unit * base));
    DivDiv(time, unit, base);
  }

  /** Dividing by `unit` and then by `base` as reals, then truncating, is integer division by their product. */
  lemma TruncOfNestedQuotient(time: int, unit: int, base: int)
    requires time >= 0 && unit > 0 && base > 0
    ensures Trunc(time as real / unit as real / base as real) == time / (unit * base)
  {
    var x := time as real / unit as real;
    var y := time as real / (unit * base) as real;
    assert x / base as real == y by {
      assert (unit * base) as real == unit as real * base as real;
    }
    FloorOfQuotient(time, unit * base);
    assert y >= 0.0 by {
      assert y * (unit * base) as real == time as real;
    }
  }

  /** Subtracting a whole multiple commutes with the floor. */
  lemma FloorShift(x: real, b: int, k: int)
    ensures (x - b as real * k as real).Floor == x.Floor - b * k
  {
    assert b as real * k as real == (b * k) as real;
  }

  /** The chain of divisions behind the parts: each unit is the next smaller one divided by its base. */
  lemma UnitChain(time: int)
    requires time >= 0
    ensures time / MS_PER_MINUTE == time / MS_PER_SECOND / 60
    ensures time / MS_PER_HOUR == time / MS_PER_MINUTE / 60
    ensures time / MS_PER_DAY == time / MS_PER_HOUR / 24
    ensures time / MS_PER_YEAR == time / MS_PER_DAY / 365
  {
    DivDiv(time, MS_PER_SECOND, 60);
    DivDiv(time, MS_PER_MINUTE, 60);
    DivDiv(time, MS_PER_HOUR, 24);
    DivDiv(time, MS_PER_DAY, 365);
  }

  /**
   * For a non-negative duration the parts are each within their range, and they add back up to
   * the duration less its milliseconds.
   */
  lemma DecomposeBounds(time: int)
    requires time >= 0
    ensures var p := Decompose(time);
            p.years == time / MS_PER_YEAR &&
            p.days == (time / MS_PER_DAY) % 365 &&
            p.hours == (time / MS_PER_HOUR) % 24 &&
            p.minutes == (time / MS_PER_MINUTE) % 60 &&
            p.seconds == (time / MS_PER_SECOND) % 60 &&
            p.years >= 0 && 0 <= p.days < 365 && 0 <= p.hours < 24 && 0 <= p.minutes < 60 && 0 <= p.seconds < 60 &&
            p.years * MS_PER_YEAR + p.days * MS_PER_DAY + p.hours * MS_PER_HOUR + p.minutes * MS_PER_MINUTE +
              p.seconds * MS_PER_SECOND + time % MS_PER_SECOND == time
  {
    UnitChain(time);
    var sec, min, hour, day := time / MS_PER_SECOND, time / MS_PER_MINUTE, time / MS_PER_HOUR, time / MS_PER_DAY;
    var p := Decompose(time);
    Recombine(time, sec, min, hour, day, p, time % MS_PER_SECOND);
  }

  /** Undoing the chain of quotients and remainders, one unit at a time. */
  lemma Recombine(time: int, sec: int, min: int, hour: int, day: int, p: Parts, ms: int)
    requires time == 1000 * sec + ms
    requires sec == 60 * min + p.seconds
    requires min == 60 * hour + p.minutes
    requires hour == 24 * day + p.hours
    requires day == 365 * p.years + p.days
    ensures p.years * MS_PER_YEAR + p.days * MS_PER_DAY + p.hours * MS_PER_HOUR + p.minutes * MS_PER_MINUTE +
              p.seconds * MS_PER_SECOND + ms == time
  {
  }

  /** Decimal digits. */
  predicate IsDigit(c: char) {
    '0' <= c <= '9'
  }

  predicate AllDigits(s: string) {
    forall i :: 0 <= i < |s| ==> IsDigit(s[i])
  }

  function DigitChar(d: int): (c: char)
    requires 0 <= d < 10
    ensures IsDigit(c) && (c as int) - ('0' as int) == d
  {
    ((d + '0' as int) as char)
  }

  /** The decimal form of a natural number, without leading zeros. */
  function NatToString(n: nat): (s: string)
    ensures s != [] && AllDigits(s)
  {
    if n < 10 then [DigitChar(n)] else NatToString(n / 10) + [DigitChar(n % 10)]
  }

  /** How JavaScript prints a whole number in a template string. */
  function IntToString(n: int): string {
    if n < 0 then "-" + NatToString(-n) else NatToString(n)
  }

  /** `${n}<unit> ` when `n` is non-zero, nothing otherwise. */
  function Part(n: int, unit: char): string {
    if n != 0 then IntToString(n) + [unit, ' '] else ""
  }

  /** The string assembly: the non-zero years, days, hours and minutes, then always the seconds. */
  function Print(p: Parts): (r: string)
    ensures |r| >= 2 && r[|r| - 1] == 's'
  {
    Part(p.years, 'y') + (Part(p.days, 'd') + (Part(p.hours, 'h') + (Part(p.minutes, 'm') + (IntToString(p.seconds) + "s"))))
  }

  /** `formatTime({ time })`. Any duration under a second prints as `0s`. */
  function Format(time: int): (r: string)
    ensures |r| >= 2 && r[|r| - 1] == 's'
    ensures 0 <= time < MS_PER_SECOND ==> r == "0s"
  {
    if 0 <= time < MS_PER_SECOND then
      DivUnique(time, MS_PER_YEAR, 0, time);
      DivUnique(time, MS_PER_DAY, 0, time);
      DivUnique(time, MS_PER_HOUR, 0, time);
      DivUnique(time, MS_PER_MINUTE, 0, time);
      DivUnique(time, MS_PER_SECOND, 0, time);
      assert Decompose(time) == Parts(0, 0, 0, 0, 0);
      Print(Decompose(time))
    else
      Print(Decompose(time))
  }

  /** A zero duration prints as `0s`. */
  lemma FormatZero()
    ensures Format(0) == "0s"
  {
    assert Decompose(0) == Parts(0, 0, 0, 0, 0);
  }

  /** The value of a string of decimal digits. */
  function DigitsValue(s: string): nat
    requires AllDigits(s)
  {
    if s == [] then 0 else DigitsValue(s[..|s| - 1]) * 10 + ((s[|s| - 1] as int) - ('0' as int))
  }

  /** Reading back a printed natural number gives the number. */
  lemma {:induction false} DigitsValueOfNatToString(n: nat)
    ensures DigitsValue(NatToString(n)) == n
  {
    if n >= 10 {
      var s := NatToString(n);
      assert s[..|s| - 1] == NatToString(n / 10);
      DigitsValueOfNatToString(n / 10);
    }
  }

  /** The length of the run of digits at the front of `s`. */
  function DigitPrefixLength(s: string): (k: nat)
    ensures k <= |s|
  {
    if s == [] || !IsDigit(s[0]) then 0 else 1 + DigitPrefixLength(s[1..])
  }

  lemma {:induction false} DigitPrefixOfDigitsThenOther(d: string, t: string)
    requires AllDigits(d)
    requires t != [] && !IsDigit(t[0])
    ensures DigitPrefixLength(d + t) == |d|
  {
    if d != [] {
      assert (d + t)[1..] == d[1..] + t;
      DigitPrefixOfDigitsThenOther(d[1..], t);
    } else {
      assert d + t == t;
    }
  }

  /** Records the value read for one unit letter. */
  function SetPart(acc: Parts, unit: char, v: int): Parts {
    if unit == 'y' then acc.(years := v)
    else if unit == 'd' then acc.(days := v)
    else if unit == 'h' then acc.(hours := v)
    else if unit == 'm' then acc.(minutes := v)
    else acc.(seconds := v)
  }

  predicate IsUnit(c: char) {
    c == 'y' || c == 'd' || c == 'h' || c == 'm' || c == 's'
  }

  /** The place of a unit letter in the printed order y, d, h, m, s. */
  function Rank(unit: char): nat {
    if unit == 'y' then 0 else if unit == 'd' then 1 else if unit == 'h' then 2 else if unit == 'm' then 3 else 4
  }

  /** The unit letter printed at place `r`. */
  function UnitAt(r: nat): char {
    if r == 0 then 'y' else if r == 1 then 'd' else if r == 2 then 'h' else if r == 3 then 'm' else 's'
  }

  /** The part printed at place `r`. */
  function FieldAt(p: Parts, r: nat): int {
    if r == 0 then p.years else if r == 1 then p.days else if r == 2 then p.hours else if r == 3 then p.minutes
    else p.seconds
  }

  /**
   * Reads the printed form strictly: `<n><unit> ` tokens for y, d, h and m, each with a non-zero
   * value and in that order (`from` is the first place still allowed), then `<n>s`, which ends the
   * input. Each number must be written as it prints, without leading zeros.
   */
  function ParseParts(s: string, acc: Parts, from: nat): Option<Parts>
    decreases |s|
  {
    var k := DigitPrefixLength(s);
    if k == 0 || k == |s| || !IsUnit(s[k]) || Rank(s[k]) < from then None
    else
      assert AllDigits(s[..k]) by { DigitPrefixIsDigits(s); }
      var v := DigitsValue(s[..k]);
      var rest := s[k + 1..];
      if s[..k] != NatToString(v) then None
      else if s[k] == 's' then (if rest == [] then Some(acc.(seconds := v)) else None)
      else if v == 0 || rest == [] || rest[0] != ' ' then None
      else ParseParts(rest[1..], SetPart(acc, s[k], v), Rank(s[k]) + 1)
  }

  lemma {:induction false} DigitPrefixIsDigits(s: string)
    ensures AllDigits(s[..DigitPrefixLength(s)])
  {
    if s != [] && IsDigit(s[0]) {
      DigitPrefixIsDigits(s[1..]);
      assert s[..DigitPrefixLength(s)] == [s[0]] + s[1..][..DigitPrefixLength(s[1..])];
    }
  }

  /** Reads a duration printed by `Format`; the parts it does not find stay zero. */
  function ParseDuration(s: string): Option<Parts> {
    ParseParts(s, Parts(0, 0, 0, 0, 0), 0)
  }

  /** A printed number followed by a unit letter: its digits, its value and the letter. */
  lemma ReadNumber(n: nat, unit: char, tail: string)
    requires IsUnit(unit)
    ensures var s := NatToString(n) + [unit] + tail;
            var k := DigitPrefixLength(s);
            k == |NatToString(n)| && k < |s| && s[k] == unit && s[..k] == NatToString(n) && s[k + 1..] == tail &&
            AllDigits(s[..k]) && DigitsValue(s[..k]) == n
  {
    var d := NatToString(n);
    var s := d + [unit] + tail;
    assert s == d + ([unit] + tail);
    DigitPrefixOfDigitsThenOther(d, [unit] + tail);
    assert s[..|d|] == d;
    assert s[|d|] == unit;
    assert s[|d| + 1..] == tail;
    DigitsValueOfNatToString(n);
  }

  /** A printed y, d, h or m token moves the reader past its place. */
  lemma ParseToken(n: nat, unit: char, rest: string, acc: Parts, from: nat)
    requires IsUnit(unit) && unit != 's' && n != 0 && from <= Rank(unit)
    ensures ParseParts(NatToString(n) + [unit] + ([' '] + rest), acc, from) ==
            ParseParts(rest, SetPart(acc, unit, n), Rank(unit) + 1)
  {
    ReadNumber(n, unit, [' '] + rest);
    assert ([' '] + rest)[1..] == rest;
  }

  /** The printed seconds token ends the reading. */
  lemma ParseSeconds(n: nat, acc: Parts, from: nat)
    requires from <= 4
    ensures ParseParts(NatToString(n) + ['s'], acc, from) == Some(acc.(seconds := n))
  {
    ReadNumber(n, 's', []);
    assert NatToString(n) + ['s'] + [] == NatToString(n) + ['s'];
  }

  /** An omitted zero part reads as zero; a printed part reads as its value. */
  lemma ParsePart(n: nat, unit: char, rest: string, acc: Parts, from: nat)
    requires IsUnit(unit) && unit != 's' && from <= Rank(unit)
    requires SetPart(acc, unit, 0) == acc
    ensures ParseParts(Part(n, unit) + rest, acc, from) ==
            ParseParts(rest, SetPart(acc, unit, n), if n != 0 then Rank(unit) + 1 else from)
  {
    if n != 0 {
      assert Part(n, unit) + rest == NatToString(n) + [unit] + ([' '] + rest);
      ParseToken(n, unit, rest, acc, from);
    } else {
      assert Part(n, unit) + rest == rest;
    }
  }

  /** The printed form from place `r` on: the parts at places `r` to 3 when non-zero, then the seconds. */
  function PrintFrom(p: Parts, r: nat): string
    requires r <= 4
    decreases 4 - r
  {
    if r == 4 then IntToString(p.seconds) + "s" else Part(FieldAt(p, r), UnitAt(r)) + PrintFrom(p, r + 1)
  }

  /** Printing from the first place is `Print`. */
  lemma PrintIsPrintFrom(p: Parts)
    ensures Print(p) == PrintFrom(p, 0)
  {
  }

  /**
   * Reading the printed form from place `r` on, with the places before `r` already read, gives
   * the parts.
   */
  lemma {:induction false} ParsePrintFrom(p: Parts, r: nat, acc: Parts, from: nat)
    requires p.years >= 0 && p.days >= 0 && p.hours >= 0 && p.minutes >= 0 && p.seconds >= 0
    requires from <= r <= 4
    requires forall q: nat :: q < r ==> FieldAt(acc, q) == FieldAt(p, q)
    requires forall q: nat :: r <= q <= 4 ==> FieldAt(acc, q) == 0
    ensures ParseParts(PrintFrom(p, r), acc, from) == Some(p)
    decreases 4 - r
  {
    if r == 4 {
      assert FieldAt(acc, 0) == p.years && FieldAt(acc, 1) == p.days;
      assert FieldAt(acc, 2) == p.hours && FieldAt(acc, 3) == p.minutes;
      assert PrintFrom(p, r) == NatToString(p.seconds) + ['s'];
      ParseSeconds(p.seconds, acc, from);
    } else {
      var n, unit := FieldAt(p, r), UnitAt(r);
      assert FieldAt(acc, r) == 0;
      ParsePart(n, unit, PrintFrom(p, r + 1), acc, from);
      SetPartAt(acc, unit, n);
      ParsePrintFrom(p, r + 1, SetPart(acc, unit, n), if n != 0 then r + 1 else from);
    }
  }

  /** Reading back printed parts that are all non-negative gives the parts. */
  lemma PrintRoundTrip(p: Parts)
    requires p.years >= 0 && p.days >= 0 && p.hours >= 0 && p.minutes >= 0 && p.seconds >= 0
    ensures ParseDuration(Print(p)) == Some(p)
  {
    PrintIsPrintFrom(p);
    ParsePrintFrom(p, 0, Parts(0, 0, 0, 0, 0), 0);
  }

  /** Places whose parts are zero print nothing. */
  lemma {:induction false} PrintFromSkipsZeros(p: Parts, from: nat, q: nat)
    requires from <= q <= 4
    requires forall r: nat :: from <= r < q ==> FieldAt(p, r) == 0
    ensures PrintFrom(p, from) == PrintFrom(p, q)
    decreases q - from
  {
    if from < q {
      PrintFromSkipsZeros(p, from + 1, q);
      assert Part(FieldAt(p, from), UnitAt(from)) == "";
    }
  }

  /** Setting the part of a unit letter changes that place only. */
  lemma SetPartAt(acc: Parts, unit: char, v: int)
    requires IsUnit(unit)
    ensures UnitAt(Rank(unit)) == unit
    ensures forall r: nat :: r <= 4 ==> FieldAt(SetPart(acc, unit, v), r) == if r == Rank(unit) then v else FieldAt(acc, r)
  {
  }

  /** What the reader checked of a string it accepted: one token, then the end or the next token. */
  lemma ParseAccepted(s: string, acc: Parts, from: nat, p: Parts) returns (v: nat, unit: char, tail: string)
    requires ParseParts(s, acc, from) == Some(p)
    ensures IsUnit(unit) && from <= Rank(unit)
    ensures unit == 's' ==> s == NatToString(v) + "s" && p == SetPart(acc, 's', v)
    ensures unit != 's' ==>
              v != 0 && s == NatToString(v) + [unit] + ([' '] + tail) &&
              ParseParts(tail, SetPart(acc, unit, v), Rank(unit) + 1) == Some(p)
  {
    DigitPrefixIsDigits(s);
    var k := DigitPrefixLength(s);
    assert s == s[..k] + [s[k]] + s[k + 1..];
    v, unit := DigitsValue(s[..k]), s[k];
    if k + 1 < |s| {
      assert s[k + 1..] == [s[k + 1]] + s[k + 2..];
      tail := s[k + 2..];
    } else {
      tail := [];
    }
  }

  /** An accepted seconds token is the printed form of what was read, from its place on. */
  lemma SecondsIsPrinted(v: nat, acc: Parts, from: nat, p: Parts)
    requires from <= 4 && p == SetPart(acc, 's', v)
    requires forall r: nat :: from <= r <= 4 ==> FieldAt(acc, r) == 0
    ensures NatToString(v) + "s" == PrintFrom(p, from)
    ensures forall r: nat :: r < from ==> FieldAt(p, r) == FieldAt(acc, r)
  {
    SetPartAt(acc, 's', v);
    PrintFromSkipsZeros(p, from, 4);
  }

  /** An accepted y, d, h or m token followed by the printed rest is the printed form from `from` on. */
  lemma TokenIsPrinted(v: nat, unit: char, q: nat, tail: string, from: nat, p: Parts)
    requires from <= q < 4 && v != 0 && UnitAt(q) == unit
    requires FieldAt(p, q) == v && tail == PrintFrom(p, q + 1)
    requires forall r: nat :: from <= r < q ==> FieldAt(p, r) == 0
    ensures NatToString(v) + [unit] + ([' '] + tail) == PrintFrom(p, from)
  {
    PrintFromSkipsZeros(p, from, q);
    TokenPrinted(v, unit, tail);
  }

  /** A non-zero part followed by `tail`, spelled out. */
  lemma TokenPrinted(v: nat, unit: char, tail: string)
    requires v != 0
    ensures NatToString(v) + [unit] + ([' '] + tail) == Part(v, unit) + tail
  {
    var d := NatToString(v);
    assert Part(v, unit) == d + [unit, ' '];
    assert d + [unit] + ([' '] + tail) == (d + [unit, ' ']) + tail;
  }

  /**
   * Whatever the reader accepts from place `from` on is the printed form, from that place, of the
   * parts it reads.
   */
  lemma {:induction false} ParsedIsPrintedFrom(s: string, acc: Parts, from: nat, p: Parts)
    requires from <= 4
    requires forall r: nat :: from <= r <= 4 ==> FieldAt(acc, r) == 0
    requires ParseParts(s, acc, from) == Some(p)
    ensures s == PrintFrom(p, from)
    ensures forall r: nat :: r < from ==> FieldAt(p, r) == FieldAt(acc, r)
    decreases |s|
  {
    var v, unit, tail := ParseAccepted(s, acc, from, p);
    if unit == 's' {
      SecondsIsPrinted(v, acc, from, p);
    } else {
      SetLaterPart(acc, unit, v, from);
      ParsedIsPrintedFrom(tail, SetPart(acc, unit, v), Rank(unit) + 1, p);
      TokenStep(s, v, unit, tail, acc, from, p);
    }
  }

  /** The step of `ParsedIsPrintedFrom` past a y, d, h or m token, once the rest is known to be printed. */
  lemma TokenStep(s: string, v: nat, unit: char, tail: string, acc: Parts, from: nat, p: Parts)
    requires IsUnit(unit) && unit != 's' && from <= Rank(unit) && v != 0
    requires s == NatToString(v) + [unit] + ([' '] + tail)
    requires forall r: nat :: from <= r <= 4 ==> FieldAt(acc, r) == 0
    requires tail == PrintFrom(p, Rank(unit) + 1)
    requires forall r: nat :: r < Rank(unit) + 1 ==> FieldAt(p, r) == FieldAt(SetPart(acc, unit, v), r)
    ensures s == PrintFrom(p, from)
    ensures forall r: nat :: r < from ==> FieldAt(p, r) == FieldAt(acc, r)
  {
    ReadPartsAgree(acc, unit, v, from, p);
    SetPartAt(acc, unit, v);
    TokenIsPrinted(v, unit, Rank(unit), tail, from, p);
  }

  /** Setting a part at or after `from` keeps the places after it zero. */
  lemma SetLaterPart(acc: Parts, unit: char, v: int, from: nat)
    requires IsUnit(unit) && unit != 's' && from <= Rank(unit)
    requires forall r: nat :: from <= r <= 4 ==> FieldAt(acc, r) == 0
    ensures UnitAt(Rank(unit)) == unit
    ensures forall r: nat :: Rank(unit) + 1 <= r <= 4 ==> FieldAt(SetPart(acc, unit, v), r) == 0
  {
    SetPartAt(acc, unit, v);
  }

  /**
   * If the parts read agree with the accumulator after setting `unit` below its next place, they
   * hold `v` at that place, zeros between `from` and it, and agree with the accumulator below `from`.
   */
  lemma ReadPartsAgree(acc: Parts, unit: char, v: int, from: nat, p: Parts)
    requires IsUnit(unit) && unit != 's' && from <= Rank(unit)
    requires forall r: nat :: from <= r <= 4 ==> FieldAt(acc, r) == 0
    requires forall r: nat :: r < Rank(unit) + 1 ==> FieldAt(p, r) == FieldAt(SetPart(acc, unit, v), r)
    ensures FieldAt(p, Rank(unit)) == v
    ensures forall r: nat :: from <= r < Rank(unit) ==> FieldAt(p, r) == 0
    ensures forall r: nat :: r < from ==> FieldAt(p, r) == FieldAt(acc, r)
  {
    SetPartAt(acc, unit, v);
  }

  /**
   * The reader accepts only printed forms: a string it reads as `p` is exactly `Print(p)`. With
   * `PrintRoundTrip`, the printed form of the parts is the only string that reads back as them.
   */
  lemma ParsedIsPrinted(s: string, p: Parts)
    requires ParseDuration(s) == Some(p)
    ensures s == Print(p)
  {
    ParsedIsPrintedFrom(s, Parts(0, 0, 0, 0, 0), 0, p);
    PrintIsPrintFrom(p);
  }

  /**
   * Round trip: for a non-negative duration, reading back the printed string gives exactly the
   * parts `formatTime` computed, the omitted ones included (as zero).
   */
  lemma FormatRoundTrip(time: int)
    requires time >= 0
    ensures ParseDuration(Format(time)) == Some(Decompose(time))
  {
    DecomposeBounds(time);
    PrintRoundTrip(Decompose(time));
  }
}
