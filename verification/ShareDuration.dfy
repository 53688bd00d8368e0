/** `parseAppShareDuration` (internal/cli/service_apps.go): durations that may count in days, rewritten into the
    durations time.ParseDuration knows. The reference is the exact number of nanoseconds a duration denotes. */
module ShareDuration {
  import opened Decimals
  import opened Options
  import opened TokenLists

  // ---------------------------------------------------------------- powers of ten

  function Pow10(n: nat): (p: nat)
    ensures p >= 1
  {
    if n == 0 then 1 else 10 * Pow10(n - 1)
  }

  lemma {:induction false} Pow10Adds(m: nat, n: nat)
    ensures Pow10(m + n) == Pow10(m) * Pow10(n)
  {
    if m > 0 {
      Pow10Adds(m - 1, n);
      assert Pow10(m + n) == 10 * (Pow10(m - 1) * Pow10(n)) == Pow10(m) * Pow10(n);
    }
  }

  /** A number below 10^width, with leading zeros. */
  function Padded(n: nat, width: nat): (s: string)
    requires n < Pow10(width)
    ensures |s| == width && AllDigits(s)
  {
    if width == 0 then "" else Padded(n / 10, width - 1) + [DigitChar(n % 10)]
  }

  // ---------------------------------------------------------------- decimal numbers

  function DigitRun(s: string): (n: nat)
    ensures n <= |s|
  {
    if s == "" || !IsDigit(s[0]) then 0 else 1 + DigitRun(s[1..])
  }

  lemma {:induction false} DigitRunIsDigits(s: string)
    ensures AllDigits(s[..DigitRun(s)])
    ensures DigitRun(s) < |s| ==> !IsDigit(s[DigitRun(s)])
  {
    if s != "" && IsDigit(s[0]) {
      DigitRunIsDigits(s[1..]);
      assert s[..DigitRun(s)] == [s[0]] + s[1..][..DigitRun(s[1..])];
    }
  }

  /** Length of the match of `[0-9]+(?:\.[0-9]*)?|\.[0-9]+` at the start of a text; 0 for no match. */
  function NumberRun(s: string): (n: nat)
    ensures n <= |s|
  {
    var n := DigitRun(s);
    if n > 0 then (if n < |s| && s[n] == '.' then n + 1 + DigitRun(s[n + 1..]) else n)
    else if s != "" && s[0] == '.' && DigitRun(s[1..]) > 0 then 1 + DigitRun(s[1..])
    else 0
  }

  predicate IsNumber(s: string) {
    s != "" && NumberRun(s) == |s|
  }

  /** The number its digits make without the point. */
  function Unscaled(s: string): nat {
    if s == "" then 0
    else
      var front, last := Unscaled(s[..|s| - 1]), s[|s| - 1];
      if IsDigit(last) then 10 * front + DigitValue(last) else front
  }

  lemma {:induction false} UnscaledPadded(n: nat, width: nat)
    requires n < Pow10(width)
    ensures Unscaled(Padded(n, width)) == n
  {
    if width > 0 {
      UnscaledPadded(n / 10, width - 1);
      assert Padded(n, width)[..width - 1] == Padded(n / 10, width - 1);
    }
  }

  lemma {:induction false} UnscaledDecimal(n: nat)
    ensures Unscaled(Decimal(n)) == n
  {
    if n >= 10 {
      UnscaledDecimal(n / 10);
      assert Decimal(n)[..|Decimal(n)| - 1] == Decimal(n / 10);
    } else {
      assert Decimal(n)[..0] == "";
    }
  }

  lemma {:induction false} UnscaledWithPoint(whole: string, fraction: string)
    requires AllDigits(fraction)
    ensures Unscaled(whole + "." + fraction) == Unscaled(whole) * Pow10(|fraction|) + Unscaled(fraction)
  {
    var s := whole + "." + fraction;
    if fraction == "" {
      assert s[..|s| - 1] == whole;
    } else {
      var front := fraction[..|fraction| - 1];
      UnscaledWithPoint(whole, front);
      assert s[..|s| - 1] == whole + "." + front;
      assert s[|s| - 1] == fraction[|fraction| - 1];
      TenTimes(Unscaled(whole), Pow10(|front|), Unscaled(front));
    }
  }

  lemma {:induction false} TenTimes(w: nat, p: nat, f: nat)
    ensures 10 * (w * p + f) == w * (10 * p) + 10 * f
  {
  }

  /** How many digits follow the point. */
  function Scale(s: string): (k: nat)
    ensures k <= |s|
  {
    var n := DigitRun(s);
    if n < |s| then |s| - n - 1 else 0
  }

  /** The rational a decimal number denotes. */
  function NumberValue(s: string): real {
    Unscaled(s) as real / Pow10(Scale(s)) as real
  }

  // ---------------------------------------------------------------- durations

  datatype Unit = Nanoseconds | Microseconds | MicroSign | GreekMu | Milliseconds | Seconds | Minutes | Hours | Days

  datatype Part = Part(number: string, unit: Unit)

  predicate IsPart(part: Part) {
    IsNumber(part.number)
  }

  function Name(unit: Unit): string {
    match unit
    case Nanoseconds => "ns"
    case Microseconds => "us"
    case MicroSign => "\U{B5}s"
    case GreekMu => "\U{3BC}s"
    case Milliseconds => "ms"
    case Seconds => "s"
    case Minutes => "m"
    case Hours => "h"
    case Days => "d"
  }

  /** The alternatives of `ns|us|µs|μs|ms|s|m|h|d`, the first one that starts the text. */
  function UnitAt(s: string): (unit: Option<Unit>)
    ensures unit.Some? ==> |Name(unit.value)| <= |s|
  {
    if s == "" then None
    else
      var second := |s| > 1 && s[1] == 's';
      if s[0] == 'n' && second then Some(Nanoseconds)
      else if s[0] == 'u' && second then Some(Microseconds)
      else if s[0] == '\U{B5}' && second then Some(MicroSign)
      else if s[0] == '\U{3BC}' && second then Some(GreekMu)
      else if s[0] == 'm' && second then Some(Milliseconds)
      else if s[0] == 's' then Some(Seconds)
      else if s[0] == 'm' then Some(Minutes)
      else if s[0] == 'h' then Some(Hours)
      else if s[0] == 'd' then Some(Days)
      else None
  }

  /** Nanoseconds of a unit. */
  function UnitValue(unit: Unit): real {
    match unit
    case Nanoseconds => 1.0
    case Microseconds => 1.0e3
    case MicroSign => 1.0e3
    case GreekMu => 1.0e3
    case Milliseconds => 1.0e6
    case Seconds => 1.0e9
    case Minutes => 60.0e9
    case Hours => 3600.0e9
    case Days => 24.0 * 3600.0e9
  }

  /** The source text of a part. */
  function Text(part: Part): string {
    part.number + Name(part.unit)
  }

  /** The leading part of a text: the match of appShareDurationPart. */
  function ScanPart(s: string): Option<Token<Part>> {
    var n := NumberRun(s);
    var unit := UnitAt(s[n..]);
    if n == 0 || unit.None? then None else Some(Token(Part(s[..n], unit.value), n + |Name(unit.value)|))
  }

  lemma {:induction false} ScannedPart(s: string)
    requires ScanPart(s).Some?
    ensures var part := ScanPart(s).value.token;
      var n := ScanPart(s).value.length;
      IsPart(part) && 0 < n <= |s| && Text(part) == s[..n]
      && (part.unit == Minutes && n < |s| ==> s[n] != 's')
  {
    NumberIsNumber(s);
    var n := NumberRun(s);
    var unit := UnitAt(s[n..]).value;
    assert s[n..][..|Name(unit)|] == Name(unit);
    assert s[..n + |Name(unit)|] == s[..n] + s[n..][..|Name(unit)|];
  }

  lemma {:induction false} NumberIsNumber(s: string)
    requires NumberRun(s) > 0
    ensures IsNumber(s[..NumberRun(s)])
  {
    var n, k := NumberRun(s), DigitRun(s);
    DigitRunIsDigits(s);
    DigitRunUpTo(s, n);
    if k > 0 && n > k {
      assert s[..n][k + 1..] == s[k + 1..][..n - k - 1];
      DigitRunUpTo(s[k + 1..], n - k - 1);
    } else if k == 0 {
      assert s[..n][1..] == s[1..][..n - 1];
      DigitRunUpTo(s[1..], n - 1);
    }
  }

  lemma {:induction false} DigitRunUpTo(s: string, n: nat)
    requires DigitRun(s) <= n <= |s|
    ensures DigitRun(s[..n]) == DigitRun(s)
  {
    if DigitRun(s) > 0 {
      assert s[..n][1..] == s[1..][..n - 1];
      DigitRunUpTo(s[1..], n - 1);
    }
  }

  /** What can start a part. */
  predicate StartsNumber(s: string) {
    s != "" && (IsDigit(s[0]) || s[0] == '.')
  }

  /** The parts a text consists of, if the whole text is such a list. */
  function Parts(s: string): Option<seq<Part>> {
    Tokens(ScanPart, s)
  }

  function Unsigned(s: string): string {
    if s != "" && (s[0] == '+' || s[0] == '-') then s[1..] else s
  }

  /** The exact time of a part, in nanoseconds. */
  function PartValue(part: Part): real {
    NumberValue(part.number) * UnitValue(part.unit)
  }

  function Total(parts: seq<Part>): real {
    if parts == [] then 0.0 else PartValue(parts[0]) + Total(parts[1..])
  }

  lemma {:induction false} TotalConcat(a: seq<Part>, b: seq<Part>)
    ensures Total(a + b) == Total(a) + Total(b)
  {
    if a == [] {
      assert a + b == b;
    } else {
      assert (a + b)[1..] == a[1..] + b;
      TotalConcat(a[1..], b);
    }
  }

  /** The nanoseconds a duration denotes, with 1d = 24h: an optional sign, then a zero or at least one part. */
  function Denotes(s: string): Option<real> {
    var rest := Unsigned(s);
    if rest == "0" then Some(0.0)
    else if rest == "" || Parts(rest).None? then None
    else Some(Signed(s[0] == '-', Total(Parts(rest).value)))
  }

  function Signed(negative: bool, time: real): real {
    if negative then -time else time
  }

  // ---------------------------------------------------------------- scanning a list of parts

  lemma {:induction false} DigitRunStops(s: string, more: string)
    requires more == "" || !IsDigit(more[0])
    ensures DigitRun(s + more) == DigitRun(s)
  {
    if s == "" {
      assert s + more == more;
    } else if IsDigit(s[0]) {
      assert (s + more)[1..] == s[1..] + more;
      DigitRunStops(s[1..], more);
    }
  }

  /** A number ends where a text begins that continues no number. */
  lemma {:induction false} NumberRunStops(number: string, more: string)
    requires IsNumber(number) && !StartsNumber(more)
    ensures NumberRun(number + more) == |number|
  {
    DigitRunStops(number, more);
    var n := DigitRun(number);
    if n > 0 {
      if n < |number| {
        assert (number + more)[n + 1..] == number[n + 1..] + more;
        DigitRunStops(number[n + 1..], more);
      }
    } else {
      assert (number + more)[1..] == number[1..] + more;
      DigitRunStops(number[1..], more);
    }
  }

  /** The unit of a part is read whatever follows, only an `s` would turn minutes into milliseconds. */
  lemma {:induction false} UnitStops(unit: Unit, more: string)
    requires unit == Minutes && more != "" ==> more[0] != 's'
    ensures UnitAt(Name(unit) + more) == Some(unit)
    ensures !StartsNumber(Name(unit) + more)
  {
    var s := Name(unit) + more;
    assert s[0] == Name(unit)[0];
    if unit == Minutes {
      assert more != "" ==> s[1] == more[0];
    }
  }

  lemma {:induction false} ScanOnePart(part: Part, more: string)
    requires IsPart(part)
    requires part.unit == Minutes && more != "" ==> more[0] != 's'
    ensures ScanPart(Text(part) + more) == Some(Token(part, |Text(part)|))
  {
    var s := Text(part) + more;
    assert s == part.number + (Name(part.unit) + more);
    UnitStops(part.unit, more);
    NumberRunStops(part.number, Name(part.unit) + more);
    assert s[|part.number|..] == Name(part.unit) + more;
    assert s[..|part.number|] == part.number;
  }

  /** Text that starts a number, put behind, leaves the first part as it was. */
  lemma {:induction false} PartUndisturbed(s: string, t: string)
    requires t == "" || StartsNumber(t)
    ensures Undisturbed(ScanPart, s, t)
  {
    if ScanPart(s).Some? {
      ScannedPart(s);
      var part, n := ScanPart(s).value.token, ScanPart(s).value.length;
      assert s == Text(part) + s[n..] && s + t == Text(part) + (s[n..] + t);
      assert s[n..] + t != "" ==> (s[n..] + t)[0] == if n < |s| then s[n] else t[0];
      ScanOnePart(part, s[n..] + t);
    }
  }

  /** One more part at the end of the text is one more part at the end of the list. */
  lemma {:induction false} AppendPart(s: string, part: Part)
    requires Parts(s).Some? && IsPart(part)
    ensures Parts(s + Text(part)) == Some(Parts(s).value + [part])
  {
    var t := Text(part);
    assert t[0] == part.number[0];
    forall a: string
      ensures Undisturbed(ScanPart, a, t)
    {
      PartUndisturbed(a, t);
    }
    ScanOnePart(part, "");
    assert t + "" == t;
    OneToken(ScanPart, t);
    TokensConcat(ScanPart, s, t);
  }

  // ---------------------------------------------------------------- days as hours

  function Rendered(whole: nat, fraction: nat, decimals: nat): string
    requires fraction < Pow10(decimals)
  {
    Decimal(whole) + "." + Padded(fraction, decimals)
  }

  function RoundedQuotient(x: nat, b: nat): nat
    requires b > 0
  {
    if 2 * (x % b) >= b then x / b + 1 else x / b
  }

  /** big.Rat.FloatString of a / b: the given number of decimals, rounded half away from zero. */
  function FloatString(a: nat, b: nat, decimals: nat): string
    requires b > 0
  {
    var p := Pow10(decimals);
    var q, f := a / b, RoundedQuotient(a % b * p, b);
    if f >= p then Rendered(q + 1, 0, decimals) else Rendered(q, f, decimals)
  }

  lemma {:induction false} DecimalRun(whole: string, fraction: string)
    requires whole != "" && AllDigits(whole) && AllDigits(fraction)
    ensures IsNumber(whole + "." + fraction)
    ensures Scale(whole + "." + fraction) == |fraction|
  {
    var s := whole + "." + fraction;
    assert s == whole + ("." + fraction);
    AllRun(whole);
    AllRun(fraction);
    DigitRunStops(whole, "." + fraction);
    assert s[|whole| + 1..] == fraction;
    assert s[..|whole|] == whole;
  }

  lemma {:induction false} AllRun(s: string)
    requires AllDigits(s)
    ensures DigitRun(s) == |s|
  {
    if s != "" {
      AllRun(s[1..]);
    }
  }

  /** Enough decimals for an exact result: the division leaves no remainder. */
  lemma {:induction false} ExactDivision(a: nat, b: nat, m: nat)
    requires b > 0
    ensures RoundedQuotient((a % b) * (b * m), b) == (a % b) * m
    ensures (a / b) * (b * m) + (a % b) * m == a * m
  {
    var r := a % b;
    var x := r * m;
    assert r * (b * m) == x * b;
    Divides(x, b);
    assert (a / b) * (b * m) + r * m == ((a / b) * b + r) * m;
  }

  lemma {:induction false} Divides(x: nat, b: nat)
    requires b > 0
    ensures x * b / b == x && x * b % b == 0
  {
    var q, r := x * b / b, x * b % b;
    assert x * b == q * b + r;
    SameMultiple(x, q, r, b);
  }

  lemma {:induction false} SameMultiple(x: int, q: int, r: int, b: int)
    requires 0 <= r < b && x * b == q * b + r
    ensures x == q && r == 0
  {
    if x > q {
      AtLeastOnce(x - q, b);
    } else if x < q {
      AtLeastOnce(q - x, b);
    }
  }

  lemma {:induction false} AtLeastOnce(n: int, b: int)
    requires n >= 1 && b > 0
    ensures n * b >= b
  {
  }

  lemma {:induction false} BelowProduct(r: nat, b: nat, m: nat)
    requires r < b && m >= 1
    ensures 0 <= r * m < b * m
  {
  }

  lemma {:induction false} RenderedValue(q: nat, f: nat, decimals: nat)
    requires f < Pow10(decimals)
    ensures IsNumber(Rendered(q, f, decimals))
    ensures NumberValue(Rendered(q, f, decimals)) == (q * Pow10(decimals) + f) as real / Pow10(decimals) as real
  {
    DecimalRun(Decimal(q), Padded(f, decimals));
    UnscaledWithPoint(Decimal(q), Padded(f, decimals));
    UnscaledDecimal(q);
    UnscaledPadded(f, decimals);
    ValueFrom(Rendered(q, f, decimals), q * Pow10(decimals) + f, decimals);
  }

  lemma {:induction false} ValueFrom(s: string, n: nat, k: nat)
    requires Unscaled(s) == n && Scale(s) == k
    ensures NumberValue(s) == n as real / Pow10(k) as real
  {
  }

  /** The nearest multiple, halves up. */
  lemma {:induction false} Nearest(x: nat, b: nat)
    requires b > 0
    ensures var q := RoundedQuotient(x, b);
      && 2 * (q * b - x) <= b && 2 * (x - q * b) < b
  {
    assert x == x / b * b + x % b;
    assert (x / b + 1) * b == x / b * b + b;
  }

  /** Whatever the fraction, what is printed is its nearest multiple of a unit in the last place. */
  lemma {:induction false} FloatStringIsNearest(a: nat, b: nat, decimals: nat)
    requires b > 0
    ensures IsNumber(FloatString(a, b, decimals))
    ensures NumberValue(FloatString(a, b, decimals))
         == RoundedQuotient(a * Pow10(decimals), b) as real / Pow10(decimals) as real
  {
    var p := Pow10(decimals);
    var q, r := a / b, a % b;
    RoundsUpTo(r, b, p);
    WholePart(a, b, p);
    CarriedValue(a, b, decimals, RoundedQuotient(r * p, b));
  }

  lemma {:induction false} CarriedValue(a: nat, b: nat, decimals: nat, f: nat)
    requires b > 0 && f == RoundedQuotient(a % b * Pow10(decimals), b) <= Pow10(decimals)
    ensures IsNumber(FloatString(a, b, decimals))
    ensures NumberValue(FloatString(a, b, decimals)) == (a / b * Pow10(decimals) + f) as real / Pow10(decimals) as real
  {
    Carried(a / b, f, decimals);
  }

  /** The digits printed for a whole number and a rounded fraction, one carried over if it rounds up to one. */
  lemma {:induction false} Carried(q: nat, f: nat, decimals: nat)
    requires f <= Pow10(decimals)
    ensures var s := if f >= Pow10(decimals) then Rendered(q + 1, 0, decimals) else Rendered(q, f, decimals);
      IsNumber(s) && NumberValue(s) == (q * Pow10(decimals) + f) as real / Pow10(decimals) as real
  {
    if f >= Pow10(decimals) {
      RenderedValue(q + 1, 0, decimals);
      OneMoreWhole(q, f);
    } else {
      RenderedValue(q, f, decimals);
    }
  }

  lemma {:induction false} OneMoreWhole(q: nat, p: nat)
    ensures (q + 1) * p + 0 == q * p + p
  {
  }

  lemma {:induction false} RoundsUpTo(r: nat, b: nat, p: nat)
    requires r < b && p > 0
    ensures RoundedQuotient(r * p, b) <= p
  {
    Nearest(r * p, b);
    BelowProduct(r, b, p);
    NotAbove(RoundedQuotient(r * p, b), p, b, r * p);
  }

  lemma {:induction false} NotAbove(q: nat, p: nat, b: nat, x: nat)
    requires b > 0 && 2 * (q * b - x) <= b && x < b * p
    ensures q <= p
  {
    assert (q - p) * b == q * b - b * p;
    if q > p {
      AtLeastOnce(q - p, b);
    }
  }

  lemma {:induction false} WholePart(a: nat, b: nat, p: nat)
    requires b > 0
    ensures RoundedQuotient(a * p, b) == a / b * p + RoundedQuotient(a % b * p, b)
  {
    var q, r := a / b, a % b;
    Regrouped(q, b, r, p);
    assert a == q * b + r;
    QuotientShifts(q * p, r * p, b);
    SameRounding(a * p, q * p, r * p, b);
  }

  lemma {:induction false} Regrouped(q: nat, b: nat, r: nat, p: nat)
    ensures (q * b + r) * p == q * p * b + r * p
  {
    assert q * b * p == q * p * b;
  }

  lemma {:induction false} SameRounding(y: nat, m: nat, x: nat, b: nat)
    requires b > 0 && y / b == m + x / b && y % b == x % b
    ensures RoundedQuotient(y, b) == m + RoundedQuotient(x, b)
  {
  }

  lemma {:induction false} QuotientShifts(m: nat, x: nat, b: nat)
    requires b > 0
    ensures (m * b + x) / b == m + x / b && (m * b + x) % b == x % b
  {
    var y := m * b + x;
    assert x == x / b * b + x % b && y == y / b * b + y % b;
    assert y == (m + x / b) * b + x % b;
    SameDivision(y / b, y % b, m + x / b, x % b, b);
  }

  lemma {:induction false} SameDivision(q: int, r: int, q': int, r': int, b: int)
    requires b > 0 && 0 <= r < b && 0 <= r' < b && q * b + r == q' * b + r'
    ensures q == q' && r == r'
  {
    assert (q - q') * b == r' - r;
    if q > q' {
      AtLeastOnce(q - q', b);
    } else if q < q' {
      AtLeastOnce(q' - q, b);
    }
  }

  lemma {:induction false} FloatStringValue(a: nat, b: nat, decimals: nat, f: nat)
    requires b > 0 && RoundedQuotient(a % b * Pow10(decimals), b) == f < Pow10(decimals)
    ensures IsNumber(FloatString(a, b, decimals))
    ensures NumberValue(FloatString(a, b, decimals)) == (a / b * Pow10(decimals) + f) as real / Pow10(decimals) as real
  {
    CarriedValue(a, b, decimals, f);
  }

  /** FloatString does not round a fraction over 10^k when it may print k decimals. */
  lemma {:induction false} FloatStringIsExact(a: nat, k: nat, decimals: nat)
    requires k <= decimals
    ensures IsNumber(FloatString(a, Pow10(k), decimals))
    ensures NumberValue(FloatString(a, Pow10(k), decimals)) == a as real / Pow10(k) as real
  {
    var m := Pow10(decimals - k);
    Pow10Adds(k, decimals - k);
    ExactFloat(a, Pow10(k), m, decimals);
  }

  lemma {:induction false} ExactFloat(a: nat, b: nat, m: nat, decimals: nat)
    requires b > 0 && m > 0 && Pow10(decimals) == b * m
    ensures IsNumber(FloatString(a, b, decimals))
    ensures NumberValue(FloatString(a, b, decimals)) == a as real / b as real
  {
    ExactDivision(a, b, m);
    BelowProduct(a % b, b, m);
    FloatStringValue(a, b, decimals, RoundedQuotient(a % b * Pow10(decimals), b));
    SameFraction(a, b, m);
  }

  lemma {:induction false} SameFraction(a: nat, b: nat, m: nat)
    requires b > 0 && m > 0 && b * m > 0
    ensures (a * m) as real / (b * m) as real == a as real / b as real
  {
    var x, y, z := a as real, b as real, m as real;
    assert (a * m) as real == x * z && (b * m) as real == y * z;
    Cancel(x, y, z);
  }

  lemma {:induction false} Cancel(x: real, y: real, z: real)
    requires y > 0.0 && z > 0.0 && y * z > 0.0
    ensures x * z / (y * z) == x / y
  {
    assert x / y * (y * z) == x / y * y * z == x * z;
  }

  lemma {:induction false} Scaled(v: nat, p: nat, unit: real)
    requires p > 0
    ensures (24 * v) as real / p as real * unit == v as real / p as real * (24.0 * unit)
  {
    var x, y := v as real, p as real;
    assert (24 * v) as real == 24.0 * x;
    assert 24.0 * x / y == 24.0 * (x / y);
  }

  /** A number of days, printed as hours. */
  function HoursOf(number: string): string {
    FloatString(24 * Unscaled(number), Pow10(Scale(number)), |number|)
  }

  /** Counting hours instead of days changes nothing: 24 times k decimals needs no more than k decimals. */
  lemma {:induction false} DaysAsHours(number: string)
    ensures IsPart(Part(HoursOf(number), Hours))
    ensures PartValue(Part(HoursOf(number), Hours)) == PartValue(Part(number, Days))
  {
    FloatStringIsExact(24 * Unscaled(number), Scale(number), |number|);
    Scaled(Unscaled(number), Pow10(Scale(number)), 3600.0e9);
  }

  // ---------------------------------------------------------------- parseAppShareDuration

  /** The part written for a part read. */
  function Rewritten(part: Part): Part {
    if part.unit == Days then Part(HoursOf(part.number), Hours) else part
  }

  lemma {:induction false} NumberHasNoLetter(number: string)
    requires IsNumber(number)
    ensures 'd' !in number
  {
    var n := DigitRun(number);
    DigitRunIsDigits(number);
    if n < |number| {
      DigitRunIsDigits(number[n + 1..]);
      assert number[n + 1..][..|number| - n - 1] == number[n + 1..];
      assert number == number[..n] + [number[n]] + number[n + 1..];
    } else {
      assert number[..n] == number;
    }
  }

  lemma {:induction false} NoDay(part: Part)
    requires IsPart(part) && part.unit != Days
    ensures 'd' !in Text(part)
  {
    NumberHasNoLetter(part.number);
    assert 'd' !in Name(part.unit);
  }

  lemma {:induction false} SignedTotal(sign: string, s: string)
    requires sign == "" || sign == "+" || sign == "-"
    requires Parts(s).Some? && s != ""
    ensures Denotes(sign + s) == Some(Signed(sign == "-", Total(Parts(s).value)))
  {
    StartsWithPart(s);
    assert sign != "" ==> (sign + s)[0] == sign[0] && (sign + s)[1..] == s;
    assert sign == "" ==> sign + s == s;
    assert Unsigned(sign + s) == s;
  }

  lemma {:induction false} StartsWithPart(s: string)
    requires Parts(s).Some? && s != ""
    ensures s != "0" && s[0] != '+' && s[0] != '-'
  {
    ScannedPart(s);
    assert NumberRun(s) > 0 && UnitAt(s[NumberRun(s)..]).Some?;
  }

  lemma {:induction false} OnePart(written: string, part: Part, done: seq<Part>)
    requires IsPart(part) && Parts(written).Some?
    requires Total(Parts(written).value) == Total(done)
    ensures Parts(written + Text(Rewritten(part))).Some?
    ensures Total(Parts(written + Text(Rewritten(part))).value) == Total(done + [part])
    ensures Text(Rewritten(part)) != "" && 'd' !in Text(Rewritten(part))
  {
    DaysAsHours(part.number);
    NoDay(Rewritten(part));
    AppendPart(written, Rewritten(part));
    TotalConcat(done, [part]);
    TotalConcat(Parts(written).value, [Rewritten(part)]);
  }

  lemma {:induction false} RewrittenText(part: Part)
    ensures Text(Rewritten(part)) == if part.unit == Days then HoursOf(part.number) + "h" else Text(part)
  {
    if part.unit == Days {
      HoursText(HoursOf(part.number));
    }
  }

  lemma {:induction false} HoursText(number: string)
    ensures Text(Part(number, Hours)) == number + "h"
  {
  }

  lemma {:induction false} SameTime(sign: string, parts: string, done: seq<Part>, written: string)
    requires sign == "" || sign == "+" || sign == "-"
    requires parts != "" && Parts(parts) == PrependAll(done, Some([]))
    requires written != "" && Parts(written).Some? && Total(Parts(written).value) == Total(done)
    ensures Denotes(sign + parts).Some? && Denotes(sign + written) == Denotes(sign + parts)
  {
    assert done + [] == done;
    SignedTotal(sign, parts);
    SignedTotal(sign, written);
  }

  // ---------------------------------------------------------------- what a duration denotes

  /** Each unit in terms of the next smaller one, down to the nanosecond. */
  lemma Units()
    ensures UnitValue(Nanoseconds) == 1.0 && UnitValue(Microseconds) == 1000.0 * UnitValue(Nanoseconds)
    ensures UnitValue(MicroSign) == UnitValue(GreekMu) == UnitValue(Microseconds)
    ensures UnitValue(Milliseconds) == 1000.0 * UnitValue(Microseconds)
    ensures UnitValue(Seconds) == 1000.0 * UnitValue(Milliseconds)
    ensures UnitValue(Minutes) == 60.0 * UnitValue(Seconds) && UnitValue(Hours) == 60.0 * UnitValue(Minutes)
    ensures UnitValue(Days) == 24.0 * UnitValue(Hours)
  {
  }

  /** A printed whole number denotes itself. */
  lemma {:induction false} WholeNumber(n: nat)
    ensures IsNumber(Decimal(n)) && NumberValue(Decimal(n)) == n as real
  {
    AllRun(Decimal(n));
    UnscaledDecimal(n);
    assert Scale(Decimal(n)) == 0 && Pow10(0) == 1;
  }

  /** One more part adds its time; a sign in front turns it round or does nothing; "0" is no time at all. */
  lemma {:induction false} TimeAdds(s: string, part: Part, t: string)
    requires Parts(s).Some? && IsPart(part) && t == s + Text(part)
    ensures Denotes(t).Some? && (s != "" ==> Denotes(s).Some?)
    ensures Denotes(t).value
         == (if s == "" then 0.0 else Denotes(s).value) + NumberValue(part.number) * UnitValue(part.unit)
  {
    AppendPart(s, part);
    TextIsSomething(part);
    OneMore(t, Parts(s).value, part);
    TimeBefore(s, Parts(s).value);
  }

  lemma TextIsSomething(part: Part)
    requires IsPart(part)
    ensures Text(part) != ""
  {
  }

  lemma {:induction false} OneMore(t: string, parts: seq<Part>, part: Part)
    requires t != "" && Parts(t) == Some(parts + [part])
    ensures Denotes(t) == Some(Total(parts) + NumberValue(part.number) * UnitValue(part.unit))
  {
    TotalOfOne(parts, part);
    DenotesParts(t);
  }

  lemma {:induction false} TimeBefore(s: string, parts: seq<Part>)
    requires Parts(s) == Some(parts)
    ensures s != "" ==> Denotes(s).Some?
    ensures Total(parts) == if s == "" then 0.0 else Denotes(s).value
  {
    if s == "" {
      OfNothing();
    } else {
      DenotesParts(s);
    }
  }

  lemma OfNothing()
    ensures Parts("") == Some([]) && Total([]) == 0.0
  {
  }

  lemma {:induction false} SignsTurn(sign: string, s: string)
    requires Parts(s).Some? && s != "" && (sign == "+" || sign == "-")
    ensures Denotes(s).Some?
    ensures Denotes(sign + s) == Some(if sign == "-" then -Denotes(s).value else Denotes(s).value)
  {
    DenotesParts(s);
    SignedTotal(sign, s);
  }

  lemma NoTime()
    ensures Denotes("0") == Some(0.0)
  {
  }

  lemma {:induction false} TotalOfOne(parts: seq<Part>, part: Part)
    ensures Total(parts + [part]) == Total(parts) + NumberValue(part.number) * UnitValue(part.unit)
  {
    TotalConcat(parts, [part]);
    assert [part][1..] == [] && Total([part]) == PartValue(part) + Total([]);
  }

  lemma {:induction false} DenotesParts(s: string)
    requires Parts(s).Some? && s != ""
    ensures Denotes(s) == Some(Total(Parts(s).value))
  {
    SignedTotal("", s);
    assert "" + s == s;
  }

  /** The text parseAppShareDuration hands to time.ParseDuration; None for "invalid duration". */
  method NormaliseDuration(value: string) returns (normalised: Option<string>)
    ensures 'd' !in value ==> normalised == Some(value)
    ensures 'd' in value ==> (normalised.None? <==> Denotes(value).None?)
    ensures normalised.Some? ==> 'd' !in normalised.value && Denotes(normalised.value) == Denotes(value)
  {
    if 'd' !in value {
      return Some(value);
    }
    var sign, rest := "", value;
    if value[0] == '+' || value[0] == '-' {
      sign, rest := [value[0]], value[1..];
    }
    ghost var parts, done: seq<Part> := rest, [];
    assert value == sign + parts && parts != "";
    PrependTwice(done, done, Parts(rest));
    var written := "";
    while rest != ""
      invariant Parts(written).Some? && 'd' !in written && (written == "" ==> rest == parts)
      invariant Total(Parts(written).value) == Total(done)
      invariant Parts(parts) == PrependAll(done, Parts(rest))
      decreases |rest|
    {
      var token := ScanPart(rest);
      if token.None? {
        return None;
      }
      var part := token.value.token;
      ScannedPart(rest);
      OnePart(written, part, done);
      var text := if part.unit == Days then HoursOf(part.number) + "h" else Text(part);
      RewrittenText(part);
      written := written + text;
      PrependTwice(done, [part], Parts(rest[token.value.length..]));
      done := done + [part];
      rest := rest[token.value.length..];
    }
    SameTime(sign, parts, done, written);
    normalised := Some(sign + written);
  }
}
