/** The value `json.loads` produces, and Python's `int()` / `float()`
    coercions of the members of such a value, numeric strings included. */
module Json {
  import opened Text

  /** A parsed JSON value. Python distinguishes integers from floats after
      parsing, so the model does too; floats are modelled as reals. Object
      key order is not modelled. */
  datatype Json =
    | JNull
    | JBool(b: bool)
    | JInt(i: int)
    | JFloat(f: real)
    | JStr(s: string)
    | JArr(items: seq<Json>)
    | JObj(fields: map<string, Json>)

  /** A JSON number; a `bool` counts, being an `int` in Python. These are
      the values Python's arithmetic, `int()` and `float()` take as they are. */
  predicate IsNumeric(j: Json) {
    j.JBool? || j.JInt? || j.JFloat?
  }

  /** Python's `int(x)` on a float: truncation toward zero. */
  function Trunc(r: real): (n: int)
    ensures r >= 0.0 ==> n as real <= r < n as real + 1.0
    ensures r < 0.0 ==> n as real - 1.0 < r <= n as real
  {
    if r >= 0.0 then r.Floor else -((-r).Floor)
  }

  // ── Decimal literals in strings ────────────────────────────────────

  /** Position `i` of `s` holds a digit, or an underscore with a digit after it. */
  predicate DigitOrScore(s: string, i: nat)
    requires i < |s|
  {
    IsDigit(s[i]) || (s[i] == '_' && i + 1 < |s| && IsDigit(s[i + 1]))
  }

  /** A run of ASCII digits in which a single underscore may stand between
      two digits (PEP 515), as `int()` and `float()` accept. */
  predicate DigitPart(s: string) {
    && |s| > 0 && IsDigit(s[0])
    && forall i :: 0 <= i < |s| ==> DigitOrScore(s, i)
  }

  /** The number the digits of `s` spell, underscores skipped. */
  function DigitPartValue(s: string): nat {
    if |s| == 0 then 0
    else if IsDigit(s[|s| - 1]) then DigitPartValue(s[..|s| - 1]) * 10 + (s[|s| - 1] as int - '0' as int)
    else DigitPartValue(s[..|s| - 1])
  }

  /** How many digits `s` holds. */
  function DigitCount(s: string): nat {
    if |s| == 0 then 0
    else DigitCount(s[..|s| - 1]) + (if IsDigit(s[|s| - 1]) then 1 else 0)
  }

  function Pow10(n: nat): (r: nat)
    ensures r >= 1
  {
    if n == 0 then 1 else 10 * Pow10(n - 1)
  }

  /** `x` times ten to the power `k`, for a negative `k` too. */
  function Scaled(x: real, k: int): real {
    if k >= 0 then x * Pow10(k) as real else x / Pow10(-k) as real
  }

  /** The first index in `s` holding `a` or `b`, or `|s|` when none does. */
  function MarkAt(s: string, a: char, b: char): (k: nat)
    ensures k <= |s|
    ensures forall j :: 0 <= j < k ==> s[j] != a && s[j] != b
    ensures k < |s| ==> s[k] == a || s[k] == b
  {
    if |s| == 0 then 0
    else if s[0] == a || s[0] == b then 0
    else
      var k := MarkAt(s[1..], a, b);
      assert forall j :: 1 <= j < 1 + k ==> s[j] == s[1..][j - 1];
      1 + k
  }

  predicate IsSign(c: char) {
    c == '+' || c == '-'
  }

  /** `t` without its leading sign, if it has one. */
  function Unsigned(t: string): string {
    if |t| > 0 && IsSign(t[0]) then t[1..] else t
  }

  function SignOf(t: string): int {
    if |t| > 0 && t[0] == '-' then -1 else 1
  }

  /** What `int()` accepts once the surrounding whitespace is stripped: an
      optional sign and a digit part. */
  predicate IntLiteral(t: string) {
    DigitPart(Unsigned(t))
  }

  function IntLiteralValue(t: string): int
    requires IntLiteral(t)
  {
    SignOf(t) * DigitPartValue(Unsigned(t))
  }

  /** The part of a float literal before its exponent: digits with an
      optional point, with digits on at least one side of the point. */
  predicate Mantissa(m: string) {
    var d := MarkAt(m, '.', '.');
    if d == |m| then DigitPart(m)
    else
      && (d > 0 || d + 1 < |m|)
      && (d == 0 || DigitPart(m[..d]))
      && (d + 1 == |m| || DigitPart(m[d + 1..]))
  }

  function MantissaValue(m: string): real
    requires Mantissa(m)
  {
    var d := MarkAt(m, '.', '.');
    if d == |m| then DigitPartValue(m) as real
    else
      var f := m[d + 1..];
      DigitPartValue(m[..d]) as real + DigitPartValue(f) as real / Pow10(DigitCount(f)) as real
  }

  /** What `float()` accepts once stripped, apart from the names of the
      infinities and NaN: an optional sign, a mantissa, and an optional
      exponent `e`/`E` with an optional sign. */
  predicate FloatLiteral(t: string) {
    var b := Unsigned(t);
    var e := MarkAt(b, 'e', 'E');
    Mantissa(b[..e]) && (e == |b| || IntLiteral(b[e + 1..]))
  }

  function FloatLiteralValue(t: string): real
    requires FloatLiteral(t)
  {
    var b := Unsigned(t);
    var e := MarkAt(b, 'e', 'E');
    SignOf(t) as real * Scaled(MantissaValue(b[..e]), if e == |b| then 0 else IntLiteralValue(b[e + 1..]))
  }

  // ── int() and float() ──────────────────────────────────────────────

  /** The values `int(x)` does not raise on. */
  predicate IntAccepts(j: Json) {
    IsNumeric(j) || (j.JStr? && IntLiteral(Strip(j.s)))
  }

  /** The values `float(x)` does not raise on. */
  predicate FloatAccepts(j: Json) {
    IsNumeric(j) || (j.JStr? && FloatLiteral(Strip(j.s)))
  }

  /** Python's `int(x)`. */
  function PyInt(j: Json): int
    requires IntAccepts(j)
  {
    match j
    case JBool(b) => if b then 1 else 0
    case JInt(i) => i
    case JFloat(f) => Trunc(f)
    case JStr(s) => IntLiteralValue(Strip(s))
  }

  /** Python's `float(x)`; on a number this is also the value arithmetic uses. */
  function PyFloat(j: Json): real
    requires FloatAccepts(j)
  {
    match j
    case JBool(b) => if b then 1.0 else 0.0
    case JInt(i) => i as real
    case JFloat(f) => f
    case JStr(s) => FloatLiteralValue(Strip(s))
  }

  /** Python's `max(lo, min(hi, v))`. */
  function Clamp(lo: int, hi: int, v: int): (r: int)
    requires lo <= hi
    ensures lo <= r <= hi
    ensures v < lo ==> r == lo
    ensures v > hi ==> r == hi
    ensures lo <= v <= hi ==> r == v
  {
    if v < lo then lo else if v > hi then hi else v
  }

  /** `dict.get(key, default)` */
  function Get(m: map<string, Json>, key: string, default: Json): Json {
    if key in m then m[key] else default
  }

  // ── Properties of the coercions ────────────────────────────────────

  /** On a string of plain digits the underscore-aware reading is the
      ordinary decimal one. */
  lemma {:induction false} DigitsAgree(ds: string)
    requires AllDigits(ds)
    ensures DigitPartValue(ds) == DigitsValue(ds) && DigitCount(ds) == |ds|
  {
    if |ds| > 0 {
      DigitsAgree(ds[..|ds| - 1]);
    }
  }

  /** Python's `str()` of an integer. */
  function IntText(n: int): (t: string)
    ensures |t| > 0 && !IsSpace(t[0]) && !IsSpace(t[|t| - 1])
  {
    if n < 0 then "-" + DecimalString(-n) else DecimalString(n)
  }

  /** The text `str()` prints for an integer is an integer literal of that value. */
  lemma {:induction false} IntTextLiteral(n: int)
    ensures IntLiteral(IntText(n)) && IntLiteralValue(IntText(n)) == n
  {
    var t := IntText(n);
    var ds := DecimalString(if n < 0 then -n else n);
    assert Unsigned(t) == ds && SignOf(t) == (if n < 0 then -1 else 1);
    DigitsAgree(ds);
    DecimalRoundTrip(if n < 0 then -n else n);
  }

  /** `int()` reads back what `str()` printed. */
  lemma {:induction false} IntTextAccepted(n: int)
    ensures IntAccepts(JStr(IntText(n))) && PyInt(JStr(IntText(n))) == n
  {
    StripTrimmed(IntText(n));
    IntTextLiteral(n);
  }

  /** ... whatever whitespace surrounds it. */
  lemma {:induction false} IntRoundTrip(n: int, pre: string, post: string)
    requires forall i :: 0 <= i < |pre| ==> IsSpace(pre[i])
    requires forall i :: 0 <= i < |post| ==> IsSpace(post[i])
    ensures IntAccepts(JStr(pre + IntText(n) + post))
    ensures PyInt(JStr(pre + IntText(n) + post)) == n
  {
    StripPadded(pre, IntText(n), post);
    IntTextLiteral(n);
  }

  /** An underscore between two digit runs changes nothing in the value. */
  lemma {:induction false} ScoreSkipped(a: string, b: string)
    ensures DigitPartValue(a + "_" + b) == DigitPartValue(a + b)
    decreases |b|
  {
    if |b| == 0 {
      assert a + "_" + b == a + "_" && (a + "_")[..|a|] == a;
      assert a + b == a;
    } else {
      var b' := b[..|b| - 1];
      assert (a + "_" + b)[..|a + "_" + b| - 1] == a + "_" + b';
      assert (a + b)[..|a + b| - 1] == a + b';
      ScoreSkipped(a, b');
    }
  }

  /** `int()` takes "1_000" for 1000: an underscore may join two digit runs. */
  lemma {:induction false} ScoredLiteral(a: string, b: string)
    requires |a| > 0 && AllDigits(a) && |b| > 0 && AllDigits(b)
    ensures IntLiteral(a + "_" + b) && IntLiteralValue(a + "_" + b) == DigitsValue(a + b)
  {
    var t := a + "_" + b;
    forall j | 0 <= j < |t|
      ensures DigitOrScore(t, j)
    {
      if j < |a| { assert t[j] == a[j]; }
      else if j == |a| { assert t[j + 1] == b[0]; }
      else { assert t[j] == b[j - |a| - 1]; }
    }
    assert t[0] == a[0] && Unsigned(t) == t && SignOf(t) == 1;
    ScoreSkipped(a, b);
    DigitsAgree(a + b);
  }

  /** `int()` rejects every string holding a point, "60.5" among them. */
  lemma {:induction false} PointNotInt(s: string, k: nat)
    requires k < |Strip(s)| && Strip(s)[k] == '.'
    ensures !IntAccepts(JStr(s))
  {
    var t := Strip(s);
    var u := Unsigned(t);
    var k' := if IsSign(t[0]) then k - 1 else k;
    assert 0 <= k' < |u| && u[k'] == '.';
    assert !DigitOrScore(u, k');
  }

  /** Every literal `float()` accepts holds a digit; so the names "inf",
      "infinity" and "nan", which Python's `float()` also accepts, are read
      here as rejected. */
  lemma {:induction false} FloatLiteralHasDigit(t: string)
    requires FloatLiteral(t)
    ensures exists j :: 0 <= j < |t| && IsDigit(t[j])
  {
    var b := Unsigned(t);
    var e := MarkAt(b, 'e', 'E');
    var m := b[..e];
    var d := MarkAt(m, '.', '.');
    var j := if d == |m| || d > 0 then 0 else d + 1;
    assert IsDigit(m[j]);
    var off := if |t| > 0 && IsSign(t[0]) then 1 else 0;
    assert t[j + off] == m[j];
  }

  /** `float()` of "<a>e<k>" is `a` scaled by ten to the `k`. */
  lemma {:induction false} ExponentScales(a: nat, k: int)
    ensures FloatLiteral(DecimalString(a) + "e" + IntText(k))
    ensures FloatLiteralValue(DecimalString(a) + "e" + IntText(k)) == Scaled(a as real, k)
  {
    var ds := DecimalString(a);
    var kt := IntText(k);
    var t := ds + "e" + kt;
    assert forall j :: 0 <= j < |ds| ==> t[j] == ds[j] && IsDigit(t[j]);
    assert t[|ds|] == 'e';
    assert MarkAt(t, 'e', 'E') == |ds|;
    assert t[0] == ds[0] && Unsigned(t) == t && SignOf(t) == 1;
    assert t[..|ds|] == ds && t[|ds| + 1..] == kt;
    assert forall j :: 0 <= j < |ds| ==> ds[j] != '.';
    assert MarkAt(ds, '.', '.') == |ds|;
    DigitsAgree(ds);
    DecimalRoundTrip(a);
    IntTextLiteral(k);
  }

  /** Every literal `int()` accepts, `float()` accepts too, with the same value. */
  lemma {:induction false} IntLiteralIsFloat(t: string)
    requires IntLiteral(t)
    ensures FloatLiteral(t) && FloatLiteralValue(t) == IntLiteralValue(t) as real
  {
    var b := Unsigned(t);
    forall j | 0 <= j < |b|
      ensures b[j] != 'e' && b[j] != 'E' && b[j] != '.'
    {
      assert DigitOrScore(b, j);
    }
    assert MarkAt(b, 'e', 'E') == |b| && MarkAt(b, '.', '.') == |b|;
    assert b[..|b|] == b;
  }

  /** A mantissa "<i>.<f>" of two digit parts: the whole part plus the
      fraction. */
  lemma {:induction false} PointMantissa(i: string, f: string)
    requires DigitPart(i) && DigitPart(f)
    ensures Mantissa(i + "." + f)
    ensures MantissaValue(i + "." + f) == DigitPartValue(i) as real + DigitPartValue(f) as real / Pow10(DigitCount(f)) as real
  {
    var m := i + "." + f;
    forall j | 0 <= j < |i|
      ensures m[j] == i[j] && m[j] != '.'
    {
      assert DigitOrScore(i, j);
    }
    assert m[|i|] == '.';
    assert MarkAt(m, '.', '.') == |i|;
    assert m[..|i|] == i && m[|i| + 1..] == f;
  }

  /** A float literal without a sign or an exponent is read as its mantissa. */
  lemma {:induction false} PlainFloat(m: string)
    requires Mantissa(m) && |m| > 0 && !IsSign(m[0])
    requires forall j :: 0 <= j < |m| ==> m[j] != 'e' && m[j] != 'E'
    ensures FloatLiteral(m) && FloatLiteralValue(m) == MantissaValue(m)
  {
    assert MarkAt(m, 'e', 'E') == |m|;
    assert m[..|m|] == m;
  }

  /** `float()` of "<a>.<f>" is `a` plus the digits `f` read as a fraction. */
  lemma {:induction false} DecimalPoint(a: nat, f: string)
    requires |f| > 0 && AllDigits(f)
    ensures FloatLiteral(DecimalString(a) + "." + f)
    ensures FloatLiteralValue(DecimalString(a) + "." + f) == a as real + DigitsValue(f) as real / Pow10(|f|) as real
  {
    var ds := DecimalString(a);
    var t := ds + "." + f;
    DigitsAgree(ds);
    DigitsAgree(f);
    DecimalRoundTrip(a);
    PointMantissa(ds, f);
    assert forall j :: 0 <= j < |t| ==> IsDigit(t[j]) || t[j] == '.';
    PlainFloat(t);
  }
}
