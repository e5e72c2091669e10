/**
 Sizing a guest's disk: the image size an operator writes, read exactly and rounded up to GiB, and the
 disk size a deployment freezes.
 */
module DiskSize {
  import opened Results
  import Text

  const U128_LIMIT := 0x1_0000_0000_0000_0000_0000_0000_0000_0000
  const U32_LIMIT := 0x1_0000_0000
  const GIB := 1024 * 1024 * 1024
  const DEFAULT_DEPLOY_DISK_GB := 32
  const MIN_DEPLOY_DISK_GB := 20

  datatype SizeError = UnsupportedUnit | InvalidNumber | TooLarge | TooPrecise | Zero

  // ---------------------------------------------------------------- text

  function TrimStart(s: string): string {
    if s != [] && Text.IsWhitespace(s[0]) then TrimStart(s[1..]) else s
  }

  function TrimEnd(s: string): string {
    if s != [] && Text.IsWhitespace(s[|s| - 1]) then TrimEnd(s[..|s| - 1]) else s
  }

  function Trim(s: string): string {
    TrimEnd(TrimStart(s))
  }

  function Lower(s: string): string {
    if s == [] then []
    else [if 'A' <= s[0] <= 'Z' then s[0] - 'A' + 'a' else s[0]] + Lower(s[1..])
  }

  predicate NumberChar(c: char) {
    Text.IsDigit(c) || c == '.'
  }

  /** How far the number reaches. */
  function NumberLength(s: string): (n: nat)
    ensures n <= |s|
  {
    if s == [] || !NumberChar(s[0]) then 0 else 1 + NumberLength(s[1..])
  }

  /** The part before the first dot and the part after it. */
  function SplitDot(s: string): (string, string) {
    if s == [] then ([], [])
    else if s[0] == '.' then ([], s[1..])
    else
      var (whole, fraction) := SplitDot(s[1..]);
      ([s[0]] + whole, fraction)
  }

  function Multiplier(unit: string): Option<nat> {
    if unit == "" || unit == "b" then Some(1)
    else if unit == "k" || unit == "kb" then Some(1_000)
    else if unit == "m" || unit == "mb" then Some(1_000_000)
    else if unit == "g" || unit == "gb" then Some(1_000_000_000)
    else if unit == "t" || unit == "tb" then Some(1_000_000_000_000)
    else if unit == "ki" || unit == "kib" then Some(1024)
    else if unit == "mi" || unit == "mib" then Some(1024 * 1024)
    else if unit == "gi" || unit == "gib" then Some(1024 * 1024 * 1024)
    else if unit == "ti" || unit == "tib" then Some(1024 * 1024 * 1024 * 1024)
    else None
  }

  function Pow10(n: nat): (p: nat)
    ensures p > 0
  {
    if n == 0 then 1 else 10 * Pow10(n - 1)
  }

  // ---------------------------------------------------------------- the size

  /** Whole GiB that hold this many bytes. */
  function Gib(bytes: nat): nat {
    (bytes + (GIB - 1)) / GIB
  }

  function Product(a: nat, b: nat): nat {
    a * b
  }

  function Quotient(n: nat, d: nat): nat
    requires d > 0
  {
    n / d
  }

  /** Rounds bytes up to GiB, each step checked. */
  function CheckedGib(bytes: nat): (r: Result<nat, SizeError>)
    ensures r.Ok? ==> bytes > 0 && r.value == Gib(bytes) && r.value < U32_LIMIT
  {
    if bytes == 0 then Err(Zero)
    else if bytes + (GIB - 1) >= U128_LIMIT then Err(TooLarge)
    else if Gib(bytes) >= U32_LIMIT then Err(TooLarge)
    else Ok(Gib(bytes))
  }

  /** No intermediate value leaves 128 bits, and the result fits in 32. */
  ghost predicate NoOverflow(numerator: nat, precision: nat, multiplier: nat, gib: nat) {
    && numerator < 0x1_0000_0000_0000_0000_0000_0000_0000_0000 && precision < 0x1_0000_0000
    && Pow10(precision) < 0x1_0000_0000_0000_0000_0000_0000_0000_0000
    && Product(numerator, multiplier) < 0x1_0000_0000_0000_0000_0000_0000_0000_0000
    && Quotient(Product(numerator, multiplier), Pow10(precision)) + 0x3FFF_FFFF
         < 0x1_0000_0000_0000_0000_0000_0000_0000_0000
    && gib < 0x1_0000_0000
  }

  /** The checked arithmetic: it succeeds exactly when there are bytes and nothing overflows. */
  function CheckedSize(numerator: nat, precision: nat, multiplier: nat): (r: Result<nat, SizeError>)
    ensures r.Ok? ==> r == CheckedGib(Quotient(Product(numerator, multiplier), Pow10(precision)))
    ensures r.Ok? ==> NoOverflow(numerator, precision, multiplier, r.value)
    ensures r.Err? ==>
      var bytes := Quotient(Product(numerator, multiplier), Pow10(precision));
      bytes == 0 || !NoOverflow(numerator, precision, multiplier, Gib(bytes))
  {
    if numerator >= U128_LIMIT then Err(TooLarge)
    else if precision >= U32_LIMIT || Pow10(precision) >= U128_LIMIT then Err(TooPrecise)
    else if Product(numerator, multiplier) >= U128_LIMIT then Err(TooLarge)
    else CheckedGib(Quotient(Product(numerator, multiplier), Pow10(precision)))
  }

  function SizeOf(whole: string, fraction: string, multiplier: nat): (r: Result<nat, SizeError>)
    ensures r.Ok? ==>
      && Text.AllDigits(whole) && Text.AllDigits(fraction)
      && NoOverflow(Text.DecimalValue(whole + fraction), |fraction|, multiplier, r.value)
  {
    if (whole == [] && fraction == []) || !Text.AllDigits(whole) || !Text.AllDigits(fraction) then Err(InvalidNumber)
    else CheckedSize(Text.DecimalValue(whole + fraction), |fraction|, multiplier)
  }

  /** The number and the unit of a size as written. */
  function NumberText(input: string): string {
    Trim(input)[..NumberLength(Trim(input))]
  }

  function UnitText(input: string): string {
    Lower(Trim(Trim(input)[NumberLength(Trim(input))..]))
  }

  /** `configured_image_disk_gb`. */
  function ImageDiskGb(input: string): (r: Result<nat, SizeError>)
    ensures r.Ok? ==>
      var (whole, fraction) := SplitDot(NumberText(input));
      && Multiplier(UnitText(input)).Some? && Text.AllDigits(whole) && Text.AllDigits(fraction)
      && NoOverflow(Text.DecimalValue(whole + fraction), |fraction|, Multiplier(UnitText(input)).value, r.value)
  {
    match Multiplier(UnitText(input))
    case None => Err(UnsupportedUnit)
    case Some(multiplier) =>
      var (whole, fraction) := SplitDot(NumberText(input));
      SizeOf(whole, fraction, multiplier)
  }

  // ---------------------------------------------------------------- what the number means

  /** The value of digits after the decimal point. */
  function FractionValue(s: string): real
    requires Text.AllDigits(s)
  {
    if s == [] then 0.0 else (Text.DigitValue(s[0]) as real + FractionValue(s[1..])) / 10.0
  }

  function NumberValue(whole: string, fraction: string): real
    requires Text.AllDigits(whole) && Text.AllDigits(fraction)
  {
    Text.DecimalValue(whole) as real + FractionValue(fraction)
  }

  function FloorProduct(v: real, m: nat): int {
    (v * m as real).Floor
  }

  /** The decimal times its unit, cut to a whole number of bytes. */
  function ExactBytes(whole: string, fraction: string, multiplier: nat): int
    requires Text.AllDigits(whole) && Text.AllDigits(fraction)
  {
    FloorProduct(NumberValue(whole, fraction), multiplier)
  }

  /** One more digit at the end. */
  lemma LastDigit(digits: string, d: char)
    requires Text.AllDigits(digits) && Text.IsDigit(d)
    ensures Text.AllDigits(digits + [d])
    ensures Text.DecimalValue(digits + [d]) == Text.DecimalValue(digits) * 10 + Text.DigitValue(d)
  {
    assert (digits + [d])[..|digits|] == digits;
  }

  lemma ShiftDigit(ab: nat, a: nat, p: nat, b: nat, d: nat)
    requires ab == a * p + b
    ensures ab * 10 + d == a * (10 * p) + (b * 10 + d)
  {
    assert a * (10 * p) == (a * p) * 10;
  }

  /** Digits in front of others count as many times more as there are places behind them. */
  lemma {:induction false} JoinedDigits(a: string, b: string)
    requires Text.AllDigits(a) && Text.AllDigits(b)
    ensures Text.AllDigits(a + b)
    ensures Text.DecimalValue(a + b) == Text.DecimalValue(a) * Pow10(|b|) + Text.DecimalValue(b)
  {
    if b == [] {
      assert a + b == a;
    } else {
      var n := |b| - 1;
      var front, d := b[..n], b[n];
      JoinedDigits(a, front);
      LastDigit(a + front, d);
      LastDigit(front, d);
      assert a + b == (a + front) + [d] && b == front + [d];
      ShiftDigit(Text.DecimalValue(a + front), Text.DecimalValue(a), Pow10(n), Text.DecimalValue(front),
        Text.DigitValue(d));
    }
  }

  /** The decimal point moved right by `places`. */
  function MovePoint(x: real, places: nat): real
    decreases places
  {
    if places == 0 then x else MovePoint(10.0 * x, places - 1)
  }

  lemma {:induction false} MovePointIsProduct(x: real, places: nat)
    ensures MovePoint(x, places) == x * Pow10(places) as real
    decreases places
  {
    if places > 0 {
      MovePointIsProduct(10.0 * x, places - 1);
      assert Pow10(places) as real == 10.0 * Pow10(places - 1) as real;
    }
  }

  /** Reading both parts as one number moves the point to the end. */
  lemma {:induction false} DigitsScale(whole: string, fraction: string)
    requires Text.AllDigits(whole) && Text.AllDigits(fraction)
    ensures Text.AllDigits(whole + fraction)
    ensures MovePoint(NumberValue(whole, fraction), |fraction|) == Text.DecimalValue(whole + fraction) as real
    decreases |fraction|
  {
    if fraction == [] {
      assert whole + fraction == whole;
    } else {
      var d, rest := fraction[0], fraction[1..];
      LastDigit(whole, d);
      assert whole + fraction == (whole + [d]) + rest;
      DigitsScale(whole + [d], rest);
      assert 10.0 * NumberValue(whole, fraction) == NumberValue(whole + [d], rest);
    }
  }

  lemma CancelFactor(x: real, y: real, d: real)
    requires d > 0.0
    ensures x * d <= y * d <==> x <= y
    ensures x * d < y * d <==> x < y
  {
    assert y * d - x * d == (y - x) * d;
    SignOfProduct(y - x, d);
  }

  lemma SignOfProduct(z: real, d: real)
    requires d > 0.0
    ensures z * d >= 0.0 <==> z >= 0.0
    ensures z * d > 0.0 <==> z > 0.0
  {
    if z > 0.0 {
      PositiveProduct(z, d);
    } else if z < 0.0 {
      PositiveProduct(-z, d);
      assert z * d == -(-z * d);
    }
  }

  lemma PositiveProduct(z: real, d: real)
    requires z > 0.0 && d > 0.0
    ensures z * d > 0.0
  {
  }

  lemma FloorBetween(x: real, q: int)
    requires q as real <= x < q as real + 1.0
    ensures x.Floor == q
  {
  }

  lemma FloorIs(x: real, q: int, d: real, r: real)
    requires 0.0 <= r < d && x * d == q as real * d + r
    ensures x.Floor == q
  {
    var low, high := q as real, q as real + 1.0;
    assert high * d == low * d + d;
    CancelFactor(low, x, d);
    CancelFactor(x, high, d);
    assert low <= x < high;
    FloorBetween(x, q);
  }

  lemma FloorOfQuotient(n: nat, d: nat, x: real)
    requires d > 0 && x * d as real == n as real
    ensures x.Floor == n / d
  {
    var q, r := n / d, n % d;
    assert n == q * d + r;
    RealParts(n, q, d, r);
    FloorIs(x, q, d as real, r as real);
  }

  lemma RealParts(n: nat, q: nat, d: nat, r: nat)
    requires n == q * d + r
    ensures n as real == q as real * d as real + r as real
  {
    var p := q * d;
    assert p as real == q as real * d as real;
    assert n as real == p as real + r as real;
  }

  lemma ScaledQuotient(n: nat, m: nat, d: nat, v: real)
    requires d > 0 && v * d as real == n as real
    ensures (v * m as real).Floor == Quotient(Product(n, m), d)
  {
    assert v * m as real * d as real == v * d as real * m as real;
    assert (n * m) as real == n as real * m as real;
    FloorOfQuotient(n * m, d, v * m as real);
  }

  lemma GibRoundsUp(bytes: nat)
    ensures (Gib(bytes) - 1) * GIB < bytes <= Gib(bytes) * GIB
  {
  }

  lemma CheckedSizeIsExact(n: nat, precision: nat, m: nat, v: real, gib: nat, bytes: int)
    requires CheckedSize(n, precision, m) == Ok(gib) && MovePoint(v, precision) == n as real
    requires bytes == FloorProduct(v, m)
    ensures 0 < bytes && (gib - 1) * GIB < bytes <= gib * GIB && gib < U32_LIMIT
  {
    MovePointIsProduct(v, precision);
    ScaledQuotient(n, m, Pow10(precision), v);
    GibRoundsUp(Quotient(Product(n, m), Pow10(precision)));
  }

  /** An accepted size is the exact decimal times its unit, cut to whole bytes and rounded up to GiB. */
  lemma SizeIsExact(whole: string, fraction: string, multiplier: nat)
    requires SizeOf(whole, fraction, multiplier).Ok?
    ensures var gib, bytes := SizeOf(whole, fraction, multiplier).value, ExactBytes(whole, fraction, multiplier);
      0 < bytes && (gib - 1) * 0x4000_0000 < bytes <= gib * 0x4000_0000 && gib < 0x1_0000_0000
  {
    DigitsScale(whole, fraction);
    CheckedSizeIsExact(Text.DecimalValue(whole + fraction), |fraction|, multiplier, NumberValue(whole, fraction),
      SizeOf(whole, fraction, multiplier).value, ExactBytes(whole, fraction, multiplier));
  }

  // ---------------------------------------------------------------- trailing zeros

  function Zeros(n: nat): (s: string)
    ensures |s| == n && Text.AllDigits(s)
  {
    if n == 0 then [] else Zeros(n - 1) + ['0']
  }

  lemma {:induction false} ZerosAreNothing(n: nat)
    ensures Text.DecimalValue(Zeros(n)) == 0
  {
    if n > 0 {
      ZerosAreNothing(n - 1);
      assert Zeros(n)[..n - 1] == Zeros(n - 1);
    }
  }

  lemma Associates(a: nat, b: nat, c: nat)
    ensures a * (b * c) == (a * b) * c
  {
  }

  lemma {:induction false} Pow10Sum(m: nat, n: nat)
    ensures Pow10(m + n) == Pow10(m) * Pow10(n)
  {
    if m > 0 {
      Pow10Sum(m - 1, n);
      Associates(10, Pow10(m - 1), Pow10(n));
    }
  }

  lemma QuotientByBoth(n: nat, d: nat, k: nat)
    requires d > 0 && k > 0
    ensures d * k > 0 && (n * k) / (d * k) == n / d
  {
    var q, r := n / d, n % d;
    assert n == q * d + r;
    ScaledRemainder(q, d, r, k);
    QuotientIs(n * k, d * k, q, r * k);
  }

  lemma ScaledRemainder(q: nat, d: nat, r: nat, k: nat)
    requires r < d && k > 0
    ensures (q * d + r) * k == q * (d * k) + r * k && r * k < d * k && d * k > 0
  {
    assert (q * d + r) * k == q * d * k + r * k;
    assert d * k == r * k + (d - r) * k;
    assert (d - r) * k >= 1;
  }

  lemma QuotientIs(n: nat, d: nat, q: nat, r: nat)
    requires r < d && n == q * d + r
    ensures n / d == q
  {
    var p := n / d;
    assert n == p * d + n % d;
    if p != q {
      FactorsApart(d, p, q);
    }
  }

  lemma FactorsApart(d: nat, p: nat, q: nat)
    requires p != q
    ensures p * d >= q * d + d || q * d >= p * d + d
  {
    if p > q {
      assert p * d == q * d + d + (p - q - 1) * d;
    } else {
      assert q * d == p * d + d + (q - p - 1) * d;
    }
  }

  lemma SameQuotient(v: nat, m: nat, d: nat, k: nat, w: nat, e: nat)
    requires d > 0 && k > 0 && w == v * k && e == d * k
    ensures e > 0 && Quotient(Product(w, m), e) == Quotient(Product(v, m), d)
  {
    assert w * m == (v * m) * k;
    QuotientByBoth(v * m, d, k);
  }

  /** Zeros after the last digit of the fraction may make a size too precise to accept, but never change
      an accepted one. */
  lemma TrailingZerosKeepSize(whole: string, fraction: string, n: nat, multiplier: nat)
    requires SizeOf(whole, fraction, multiplier).Ok? && SizeOf(whole, fraction + Zeros(n), multiplier).Ok?
    ensures SizeOf(whole, fraction, multiplier) == SizeOf(whole, fraction + Zeros(n), multiplier)
  {
    var digits := whole + fraction;
    assert whole + (fraction + Zeros(n)) == digits + Zeros(n);
    JoinedDigits(digits, Zeros(n));
    ZerosAreNothing(n);
    Pow10Sum(|fraction|, n);
    SameQuotient(Text.DecimalValue(digits), multiplier, Pow10(|fraction|), Pow10(n),
      Text.DecimalValue(digits + Zeros(n)), Pow10(|fraction| + n));
  }

  lemma {:induction false} NumberEnds(number: string, more: string)
    requires (forall i :: 0 <= i < |number| ==> NumberChar(number[i])) && (more == [] || !NumberChar(more[0]))
    ensures NumberLength(number + more) == |number|
  {
    if number == [] {
      assert number + more == more;
    } else {
      assert (number + more)[1..] == number[1..] + more;
      NumberEnds(number[1..], more);
    }
  }

  /** A decimal as written, with its point or, if there is no fraction, without. */
  function Written(whole: string, point: bool, fraction: string): string {
    if point then whole + "." + fraction else whole
  }

  lemma {:induction false} DotSplits(whole: string, point: bool, fraction: string)
    requires Text.AllDigits(whole) && (!point ==> fraction == [])
    ensures SplitDot(Written(whole, point, fraction)) == (whole, fraction)
  {
    var s := Written(whole, point, fraction);
    if whole == [] {
      assert point ==> s == "." + fraction && s[1..] == fraction;
    } else {
      assert s[1..] == Written(whole[1..], point, fraction);
      DotSplits(whole[1..], point, fraction);
      assert whole == [whole[0]] + whole[1..];
    }
  }

  /** Text without white space at either end. */
  predicate Tight(s: string) {
    s == [] || (!Text.IsWhitespace(s[0]) && !Text.IsWhitespace(s[|s| - 1]))
  }

  lemma {:induction false} StartTrimmed(before: string, s: string)
    requires Text.IsBlank(before) && (s == [] || !Text.IsWhitespace(s[0]))
    ensures TrimStart(before + s) == s
  {
    if before == [] {
      assert before + s == s;
    } else {
      assert (before + s)[1..] == before[1..] + s;
      StartTrimmed(before[1..], s);
    }
  }

  lemma {:induction false} EndTrimmed(s: string, after: string)
    requires Text.IsBlank(after) && (s == [] || !Text.IsWhitespace(s[|s| - 1]))
    ensures TrimEnd(s + after) == s
  {
    if after == [] {
      assert s + after == s;
    } else {
      var n := |after| - 1;
      assert (s + after)[..|s + after| - 1] == s + after[..n];
      EndTrimmed(s, after[..n]);
    }
  }

  lemma SpaceTrimmed(before: string, s: string, after: string)
    requires Text.IsBlank(before) && Text.IsBlank(after) && Tight(s)
    ensures Trim(before + s + after) == s
  {
    if s == [] {
      assert before + s + after == (before + after) + [];
      assert Text.IsBlank(before + after);
      StartTrimmed(before + after, []);
    } else {
      assert before + s + after == before + (s + after);
      StartTrimmed(before, s + after);
      EndTrimmed(s, after);
    }
  }

  /** A unit as written: no white space or number character in it. */
  predicate UnitLike(unit: string) {
    forall i :: 0 <= i < |unit| ==> !Text.IsWhitespace(unit[i]) && !NumberChar(unit[i])
  }

  /** A number at the front of a trimmed text is found, and so is the unit behind any space. */
  lemma PartsFound(value: string, number: string, gap: string, unit: string)
    requires value == number + gap + unit && number != [] && Text.IsBlank(gap) && UnitLike(unit)
    requires (forall i :: 0 <= i < |number| ==> NumberChar(number[i])) && (unit == [] ==> gap == [])
    ensures Tight(value) && value[..NumberLength(value)] == number && Trim(value[NumberLength(value)..]) == unit
  {
    assert value == number + (gap + unit);
    assert value[0] == number[0] && value[..|number|] == number;
    assert value[|value| - 1] == if unit == [] then number[|number| - 1] else unit[|unit| - 1];
    NumberEnds(number, gap + unit);
    assert value[|number|..] == gap + unit + [];
    SpaceTrimmed(gap, unit, []);
  }

  /** A decimal is read as its parts, with or without a point, with or without space before its unit and
      around it. */
  lemma DecimalIsRead(before: string, whole: string, point: bool, fraction: string, gap: string, unit: string,
                      after: string)
    requires Text.AllDigits(whole) && Text.AllDigits(fraction) && Written(whole, point, fraction) != []
    requires (!point ==> fraction == []) && UnitLike(unit) && (unit == [] ==> gap == [])
    requires Text.IsBlank(before) && Text.IsBlank(gap) && Text.IsBlank(after)
    ensures ImageDiskGb(before + (Written(whole, point, fraction) + gap + unit) + after)
         == match Multiplier(Lower(unit))
            case None => Err(UnsupportedUnit)
            case Some(multiplier) => SizeOf(whole, fraction, multiplier)
  {
    var number := Written(whole, point, fraction);
    var value := number + gap + unit;
    PartsFound(value, number, gap, unit);
    SpaceTrimmed(before, value, after);
    DotSplits(whole, point, fraction);
  }

  /** So trailing zeros of the written fraction never change an accepted size. */
  lemma WrittenZerosKeepSize(whole: string, fraction: string, n: nat, unit: string, short: string, long: string)
    requires Text.AllDigits(whole) && Text.AllDigits(fraction) && UnitLike(unit)
    requires short == whole + "." + fraction + unit && long == whole + "." + (fraction + Zeros(n)) + unit
    ensures ImageDiskGb(short).Ok? && ImageDiskGb(long).Ok? ==> ImageDiskGb(short) == ImageDiskGb(long)
  {
    assert short == [] + (Written(whole, true, fraction) + [] + unit) + [];
    assert long == [] + (Written(whole, true, fraction + Zeros(n)) + [] + unit) + [];
    DecimalIsRead([], whole, true, fraction, [], unit, []);
    DecimalIsRead([], whole, true, fraction + Zeros(n), [], unit, []);
    var m := Multiplier(Lower(unit));
    if m.Some? && SizeOf(whole, fraction, m.value).Ok? && SizeOf(whole, fraction + Zeros(n), m.value).Ok? {
      TrailingZerosKeepSize(whole, fraction, n, m.value);
    }
  }

  // ---------------------------------------------------------------- the deployment's disk

  /** `deployment_disk_gb`, with the configured image size and disk size if there are any. */
  function DeploymentDiskGb(resize: Option<string>, diskGb: Option<nat>): (r: Result<nat, Option<SizeError>>)
    ensures r.Ok? ==> r.value >= MIN_DEPLOY_DISK_GB
    ensures r.Ok? && resize.Some? ==> ImageDiskGb(resize.value).Ok? && r.value >= ImageDiskGb(resize.value).value
    ensures r.Ok? && diskGb.Some? ==> r.value == diskGb.value
  {
    var image := if resize.Some? then ImageDiskGb(resize.value) else Ok(0);
    match image
    case Err(error) => Err(Some(error))
    case Ok(minimum) =>
      if diskGb.Some? then
        if diskGb.value < MIN_DEPLOY_DISK_GB || diskGb.value < minimum then Err(None) else Ok(diskGb.value)
      else Ok(if DEFAULT_DEPLOY_DISK_GB > minimum then DEFAULT_DEPLOY_DISK_GB else minimum)
  }

  lemma LargerHolds(bytes: int, image: nat, disk: nat)
    requires bytes <= image * GIB && image <= disk
    ensures bytes <= disk * GIB
  {
  }

  /** A deployed disk holds the image: it has at least the bytes the operator wrote. */
  lemma DeploymentHoldsImage(resize: string, diskGb: Option<nat>)
    requires DeploymentDiskGb(Some(resize), diskGb).Ok?
    ensures var (whole, fraction) := SplitDot(NumberText(resize));
      && Multiplier(UnitText(resize)).Some? && Text.AllDigits(whole) && Text.AllDigits(fraction)
      && ExactBytes(whole, fraction, Multiplier(UnitText(resize)).value)
         <= DeploymentDiskGb(Some(resize), diskGb).value * GIB
  {
    var (whole, fraction) := SplitDot(NumberText(resize));
    var multiplier := Multiplier(UnitText(resize)).value;
    SizeIsExact(whole, fraction, multiplier);
    LargerHolds(ExactBytes(whole, fraction, multiplier), ImageDiskGb(resize).value,
      DeploymentDiskGb(Some(resize), diskGb).value);
  }

  /** Without a configured size the disk has 32 GiB or the image's size if that is more; a configured size is
      accepted exactly if it is at least 20 GiB and at least the image's. */
  lemma DeploymentExactly(resize: Option<string>, diskGb: Option<nat>, image: nat)
    requires if resize.Some? then ImageDiskGb(resize.value) == Ok(image) else image == 0
    ensures DeploymentDiskGb(resize, diskGb)
         == match diskGb
            case None => Ok(if image <= 32 then 32 else image)
            case Some(gb) => if gb >= 20 && gb >= image then Ok(gb) else Err(None)
  {
  }

  lemma BadImageSizeFails(resize: string, diskGb: Option<nat>)
    requires ImageDiskGb(resize).Err?
    ensures DeploymentDiskGb(Some(resize), diskGb) == Err(Some(ImageDiskGb(resize).error))
  {
  }

  // ---------------------------------------------------------------- units

  function PowerOf(b: nat, n: nat): nat {
    if n == 0 then 1 else b * PowerOf(b, n - 1)
  }

  const PREFIXES := ["", "k", "m", "g", "t"]

  /** The n-th prefix means the n-th power of 1000, alone or with a b; with an i, or an i and a b, the n-th power
      of 1024. No prefix, or a b alone, means bytes. */
  lemma UnitsArePowers(n: nat)
    requires n <= 4
    ensures Multiplier(PREFIXES[n]) == Some(PowerOf(1000, n)) && Multiplier(PREFIXES[n] + "b") == Some(PowerOf(1000, n))
    ensures n > 0 ==>
      && Multiplier(PREFIXES[n] + "i") == Some(PowerOf(1024, n))
      && Multiplier(PREFIXES[n] + "ib") == Some(PowerOf(1024, n))
  {
    KnownPowers();
    BytesUnits();
    KiloUnits();
    MegaUnits();
    GigaUnits();
    TeraUnits();
    Joined(n);
  }

  lemma Joined(n: nat)
    requires n <= 4
    ensures PREFIXES[n] + "b" == ["b", "kb", "mb", "gb", "tb"][n]
    ensures n > 0 ==> PREFIXES[n] + "i" == ["i", "ki", "mi", "gi", "ti"][n]
    ensures n > 0 ==> PREFIXES[n] + "ib" == ["ib", "kib", "mib", "gib", "tib"][n]
  {
    if n == 0 {
      assert "" + "b" == "b";
    }
  }

  lemma BytesUnits()
    ensures Multiplier("") == Some(1) && Multiplier("b") == Some(1)
  {
  }

  lemma KiloUnits()
    ensures Multiplier("k") == Some(1_000) && Multiplier("kb") == Some(1_000)
    ensures Multiplier("ki") == Some(1024) && Multiplier("kib") == Some(1024)
  {
  }

  lemma MegaUnits()
    ensures Multiplier("m") == Some(1_000_000) && Multiplier("mb") == Some(1_000_000)
    ensures Multiplier("mi") == Some(1_048_576) && Multiplier("mib") == Some(1_048_576)
  {
  }

  lemma GigaUnits()
    ensures Multiplier("g") == Some(1_000_000_000) && Multiplier("gb") == Some(1_000_000_000)
    ensures Multiplier("gi") == Some(1_073_741_824) && Multiplier("gib") == Some(1_073_741_824)
  {
  }

  lemma TeraUnits()
    ensures Multiplier("t") == Some(1_000_000_000_000) && Multiplier("tb") == Some(1_000_000_000_000)
    ensures Multiplier("ti") == Some(1_099_511_627_776) && Multiplier("tib") == Some(1_099_511_627_776)
  {
  }

  lemma KnownPowers()
    ensures PowerOf(1000, 0) == 1 && PowerOf(1000, 1) == 1_000 && PowerOf(1000, 2) == 1_000_000
    ensures PowerOf(1000, 3) == 1_000_000_000 && PowerOf(1000, 4) == 1_000_000_000_000
    ensures PowerOf(1024, 1) == 1024 && PowerOf(1024, 2) == 1_048_576
    ensures PowerOf(1024, 3) == 1_073_741_824 && PowerOf(1024, 4) == 1_099_511_627_776
  {
    assert PowerOf(1000, 2) == 1000 * PowerOf(1000, 1);
    assert PowerOf(1024, 2) == 1024 * PowerOf(1024, 1);
    assert PowerOf(1000, 4) == 1000 * PowerOf(1000, 3);
    assert PowerOf(1024, 4) == 1024 * PowerOf(1024, 3);
  }

  predicate UnitOf(unit: string, prefix: string, binary: bool) {
    unit == prefix || unit == prefix + "b" || (binary && (unit == prefix + "i" || unit == prefix + "ib"))
  }

  /** No other text is a unit. */
  lemma OnlyTheseUnits(unit: string)
    requires Multiplier(unit).Some?
    ensures exists n :: 0 <= n <= 4 && UnitOf(unit, PREFIXES[n], n > 0)
  {
    assert PREFIXES[0] == "" && PREFIXES[1] == "k" && PREFIXES[2] == "m" && PREFIXES[3] == "g" && PREFIXES[4] == "t";
  }

  /** Units are read without regard to case: capital letters become small ones, nothing else changes. */
  lemma {:induction false} LowerExactly(s: string)
    ensures |Lower(s)| == |s|
    ensures forall i :: 0 <= i < |s| ==>
      if 65 <= s[i] as int && s[i] as int <= 90 then Lower(s)[i] as int == s[i] as int + 32 else Lower(s)[i] == s[i]
    decreases |s|
  {
    if s != [] {
      LowerExactly(s[1..]);
    }
  }

  /** A number has at least one digit, and digits only but for the point. */
  lemma NumberExactly(whole: string, fraction: string, multiplier: nat)
    ensures SizeOf(whole, fraction, multiplier) == Err(InvalidNumber)
       <==> whole + fraction == "" || !Text.AllDigits(whole) || !Text.AllDigits(fraction)
  {
  }
}
