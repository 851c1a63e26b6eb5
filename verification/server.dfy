/** The pure part of the score server (`server/index.js`): how the `limit`
    query parameter of `GET /api/score` becomes a row count, the top-scores
    query as a specification over an abstract store, and the payload check
    and normalisation of `POST /api/score`. The database itself is not
    modelled: the store is a sequence of rows. */
module Server {
  import opened Utils
  import opened Wrappers
  import opened Sorting

  /** A JavaScript number: a finite value (kept exact), `NaN`, or an infinity. */
  datatype JsNumber = Finite(value: real) | NaN | Infinity(negative: bool)

  /** `Number.isFinite`. */
  predicate IsFinite(x: JsNumber) { x.Finite? }

  /** The smallest magnitude a decimal literal rounds up to an infinity from:
      2^1024 - 2^970, half an ulp above the largest double. */
  const OverflowBound: real := 179769313486231580793728971405303415079934132710037826936173778980444968292764750946649017977587207096330286416692887910946555547851940402630657488671505820681908902000708383676273854845817711531764475730270069855571366959622842914819860834936475292719074168444365510704342711559699508093042880177904174497792.0

  /** Turning an exact value into a number: too large a magnitude becomes an
      infinity of the same sign, anything else keeps its value. */
  function Rounded(x: real): (r: JsNumber)
    ensures r.Finite? <==> -OverflowBound < x < OverflowBound
    ensures r.Finite? ==> r.value == x
    ensures r.Infinity? ==> (r.negative <==> x < 0.0)
    ensures !r.NaN?
  {
    if x >= OverflowBound then Infinity(false)
    else if x <= -OverflowBound then Infinity(true)
    else Finite(x)
  }

  // ---------------------------------------------------------------- trim

  /** The WhiteSpace and LineTerminator code points of ECMAScript: what
      `String.prototype.trim` and `Number(string)` strip from both ends. */
  predicate IsJsSpace(c: char) {
    c == '\t' || c == '\n' || c == '\U{B}' || c == '\U{C}' || c == '\r' || c == ' '
    || c == '\U{A0}' || c == '\U{1680}' || ('\U{2000}' <= c <= '\U{200A}')
    || c == '\U{2028}' || c == '\U{2029}' || c == '\U{202F}' || c == '\U{205F}'
    || c == '\U{3000}' || c == '\U{FEFF}'
  }

  predicate AllSpace(s: string) { forall i :: 0 <= i < |s| ==> IsJsSpace(s[i]) }

  /** Leading white space removed. */
  function TrimStart(s: string): (r: string)
    ensures |r| <= |s| && r == s[|s| - |r|..]
    ensures AllSpace(s[..|s| - |r|])
    ensures |r| > 0 ==> !IsJsSpace(r[0])
  {
    if |s| > 0 && IsJsSpace(s[0]) then
      var r := TrimStart(s[1..]);
      assert s[..|s| - |r|] == [s[0]] + s[1..][..|s[1..]| - |r|];
      r
    else s
  }

  /** Trailing white space removed. */
  function TrimEnd(s: string): (r: string)
    ensures |r| <= |s| && r == s[..|r|]
    ensures AllSpace(s[|r|..])
    ensures |r| > 0 ==> !IsJsSpace(r[|r| - 1])
  {
    if |s| > 0 && IsJsSpace(s[|s| - 1]) then
      var r := TrimEnd(s[..|s| - 1]);
      assert s[|r|..] == s[..|s| - 1][|r|..] + [s[|s| - 1]];
      r
    else s
  }

  /** `String.prototype.trim`. */
  function Trim(s: string): (r: string)
    ensures |r| <= |s|
    ensures |r| > 0 ==> !IsJsSpace(r[0]) && !IsJsSpace(r[|r| - 1])
  {
    TrimEnd(TrimStart(s))
  }

  /** A string with no white space at either end is its own trim. */
  lemma TrimUnpadded(s: string)
    requires |s| > 0 ==> !IsJsSpace(s[0]) && !IsJsSpace(s[|s| - 1])
    ensures Trim(s) == s
  {
  }

  lemma {:induction false} TrimStartPadded(p: string, s: string)
    requires AllSpace(p)
    ensures TrimStart(p + s) == TrimStart(s)
    decreases |p|
  {
    if |p| > 0 {
      assert (p + s)[1..] == p[1..] + s;
      TrimStartPadded(p[1..], s);
    } else {
      assert p + s == s;
    }
  }

  lemma {:induction false} TrimEndPadded(s: string, q: string)
    requires AllSpace(q)
    ensures TrimEnd(s + q) == TrimEnd(s)
    decreases |q|
  {
    if |q| > 0 {
      var n := |q| - 1;
      assert (s + q)[..|s + q| - 1] == s + q[..n];
      TrimEndPadded(s, q[..n]);
    } else {
      assert s + q == s;
    }
  }

  /** Leading white space does not change where the trailing run ends. */
  lemma {:induction false} TrimStartThenPad(s: string, q: string)
    requires AllSpace(q)
    ensures TrimEnd(TrimStart(s + q)) == TrimEnd(TrimStart(s))
    decreases |s|
  {
    if |s| > 0 && IsJsSpace(s[0]) {
      assert (s + q)[1..] == s[1..] + q;
      TrimStartThenPad(s[1..], q);
    } else if |s| > 0 {
      assert TrimStart(s + q) == TrimStart(s) + q;
      TrimEndPadded(TrimStart(s), q);
    } else {
      assert s + q == q;
      TrimStartPadded(q, "");
      assert q + "" == q;
    }
  }

  /** White space added around a string is removed again by `trim()`: the
      result depends only on the string between the padding. */
  lemma TrimOfPadded(p: string, s: string, q: string)
    requires AllSpace(p) && AllSpace(q)
    ensures Trim(p + s + q) == Trim(s)
  {
    assert p + s + q == p + (s + q);
    TrimStartPadded(p, s + q);
    TrimStartThenPad(s, q);
  }

  /** Trimming twice is trimming once. */
  lemma TrimIdempotent(s: string)
    ensures Trim(Trim(s)) == Trim(s)
  {
    TrimUnpadded(Trim(s));
  }

  // ---------------------------------------------------- Number(string)

  /** The value of a digit character in bases up to 16, or 16 for any other
      character. */
  function CharDigit(c: char): (d: nat)
    ensures d <= 16
  {
    if '0' <= c <= '9' then c as int - '0' as int
    else if 'a' <= c <= 'f' then c as int - 'a' as int + 10
    else if 'A' <= c <= 'F' then c as int - 'A' as int + 10
    else 16
  }

  predicate AllDigitsIn(s: string, radix: nat) {
    forall i :: 0 <= i < |s| ==> CharDigit(s[i]) < radix
  }

  /** The value of a run of digits, most significant first. */
  function ValueIn(s: string, radix: nat): nat {
    if |s| == 0 then 0 else radix * ValueIn(s[..|s| - 1], radix) + CharDigit(s[|s| - 1])
  }

  function Pow10(n: nat): (p: nat)
    ensures p >= 1
  {
    if n == 0 then 1 else 10 * Pow10(n - 1)
  }

  /** The factor 10^e of an exponent part. */
  function Scale(e: int): (f: real)
    ensures f > 0.0
  {
    if e >= 0 then Pow10(e) as real else 1.0 / Pow10(-e) as real
  }

  /** The first position of `c` or `d` in `s`, or `|s|` when neither occurs. */
  function Find(s: string, c: char, d: char): (k: nat)
    ensures k <= |s|
    ensures forall i :: 0 <= i < k ==> s[i] != c && s[i] != d
    ensures k < |s| ==> s[k] == c || s[k] == d
  {
    if |s| == 0 || s[0] == c || s[0] == d then 0 else 1 + Find(s[1..], c, d)
  }

  /** A SignedInteger of an exponent part: an optional sign and one or more
      decimal digits. */
  function SignedInteger(x: string): (r: Option<int>)
    ensures r.Some? ==> |x| > 0
  {
    if |x| > 0 && (x[0] == '+' || x[0] == '-') then
      if |x| > 1 && AllDigitsIn(x[1..], 10) then
        var v: int := ValueIn(x[1..], 10);
        Some(if x[0] == '-' then -v else v)
      else None
    else if |x| > 0 && AllDigitsIn(x, 10) then Some(ValueIn(x, 10))
    else None
  }

  /** The value of a decimal literal from its whole digits, fraction
      digits and exponent. */
  function DecimalValue(whole: string, fraction: string, e: int): real {
    (ValueIn(whole, 10) as real + ValueIn(fraction, 10) as real / Pow10(|fraction|) as real) * Scale(e)
  }

  /** An unsigned decimal literal other than `Infinity`: digits with an
      optional fraction, at least one digit in all, and an optional exponent
      part. `None` when the text is not of that shape. */
  function UnsignedDecimal(u: string): Option<real> {
    Mantissa(u[..Find(u, 'e', 'E')], ExponentOf(u))
  }

  /** The exponent part after the first `e` or `E`: 0 when there is none,
      `None` when what follows the mark is no signed integer. */
  function ExponentOf(u: string): Option<int> {
    var k := Find(u, 'e', 'E');
    if k == |u| then Some(0) else SignedInteger(u[k + 1..])
  }

  /** The digits before the exponent mark, split at the first point. */
  function Mantissa(m: string, e: Option<int>): Option<real> {
    var d := Find(m, '.', '.');
    var whole := m[..d];
    var fraction := if d < |m| then m[d + 1..] else "";
    if e.Some? && |whole| + |fraction| > 0 && AllDigitsIn(whole, 10) && AllDigitsIn(fraction, 10) then
      Some(DecimalValue(whole, fraction, e.value))
    else None
  }

  /** The base named by the second character of a `0x`, `0o` or `0b`
      prefix, or 0 for any other character. */
  function PrefixRadix(c: char): nat {
    if c == 'x' || c == 'X' then 16
    else if c == 'o' || c == 'O' then 8
    else if c == 'b' || c == 'B' then 2
    else 0
  }

  /** Whether a trimmed text starts with `0x`, `0o` or `0b`. */
  predicate IsPrefixed(t: string) {
    |t| >= 2 && t[0] == '0' && PrefixRadix(t[1]) > 0
  }

  /** A `0x`/`0o`/`0b` literal: one or more digits of its base, no sign. */
  function NonDecimal(t: string): (r: JsNumber)
    requires IsPrefixed(t)
    ensures r.Finite? ==> r.value >= 0.0
  {
    var radix := PrefixRadix(t[1]);
    var digits := t[2..];
    if |digits| > 0 && AllDigitsIn(digits, radix) then Rounded(ValueIn(digits, radix) as real)
    else NaN
  }

  /** An optional sign followed by `Infinity` or an unsigned decimal
      literal. */
  function SignedDecimal(t: string): (r: JsNumber)
    requires |t| > 0
  {
    var negative := t[0] == '-';
    var u := if t[0] == '-' || t[0] == '+' then t[1..] else t;
    if u == "Infinity" then Infinity(negative)
    else
      match UnsignedDecimal(u)
      case Some(x) => Rounded(if negative then -x else x)
      case None => NaN
  }

  /** `Number(s)` for a string `s` (StringToNumber of ECMAScript): white
      space is trimmed; the empty string is 0; a `0x`/`0o`/`0b` literal is
      read in its base; otherwise an optional sign is followed by `Infinity`
      or a decimal literal; anything else is `NaN`. */
  function StringToNumber(s: string): (r: JsNumber)
    ensures Trim(s) == "" ==> r == Finite(0.0)
  {
    var t := Trim(s);
    if |t| == 0 then Finite(0.0)
    else if IsPrefixed(t) then NonDecimal(t)
    else SignedDecimal(t)
  }

  /** A run of decimal digits is a decimal literal of its own value. */
  lemma DigitsAreDecimal(u: string)
    requires |u| > 0 && AllDigitsIn(u, 10)
    ensures UnsignedDecimal(u) == Some(ValueIn(u, 10) as real)
  {
    var k := Find(u, 'e', 'E');
    assert k == |u|;
    assert u[..k] == u;
    assert ExponentOf(u) == Some(0);
    var d := Find(u, '.', '.');
    assert d == |u|;
    assert u[..d] == u;
    assert Mantissa(u, Some(0)) == Some(DecimalValue(u, "", 0));
    assert DecimalValue(u, "", 0) == ValueIn(u, 10) as real by {
      assert Scale(0) == 1.0;
      assert Pow10(0) == 1;
    }
  }

  /** The decimal digit character of `d`. */
  function DigitChar(d: nat): (c: char)
    requires d < 10
    ensures CharDigit(c) == d && '0' <= c <= '9'
  {
    ('0' as int + d) as char
  }

  /** The decimal text of a natural number, as `String(n)` writes it. */
  function ShowNat(n: nat): (s: string)
    ensures |s| > 0 && AllDigitsIn(s, 10)
    ensures forall i :: 0 <= i < |s| ==> '0' <= s[i] <= '9'
  {
    if n < 10 then [DigitChar(n)] else ShowNat(n / 10) + [DigitChar(n % 10)]
  }

  lemma {:induction false} ShowNatValue(n: nat)
    ensures ValueIn(ShowNat(n), 10) == n
  {
    if n >= 10 {
      ShowNatValue(n / 10);
      var s := ShowNat(n);
      assert s[..|s| - 1] == ShowNat(n / 10);
    }
  }

  /** A trimmed text without a base prefix is read as a signed decimal. */
  lemma ReadsAsSigned(t: string)
    requires Trim(t) == t && |t| > 0 && !IsPrefixed(t)
    ensures StringToNumber(t) == SignedDecimal(t)
  {
  }

  lemma DigitsUnprefixed(s: string)
    requires |s| > 0 && forall i :: 0 <= i < |s| ==> '0' <= s[i] <= '9'
    ensures !IsPrefixed(s)
  {
    if |s| >= 2 {
      assert PrefixRadix(s[1]) == 0;
    }
  }

  lemma SignedDigits(s: string)
    requires |s| > 0 && forall i :: 0 <= i < |s| ==> '0' <= s[i] <= '9'
    ensures SignedDecimal(s) == Rounded(ValueIn(s, 10) as real)
  {
    assert s != "Infinity" by { assert s[0] != "Infinity"[0]; }
    DigitsAreDecimal(s);
  }

  /** A run of decimal digits reads as its value. */
  lemma NumberOfDigits(s: string)
    requires |s| > 0 && forall i :: 0 <= i < |s| ==> '0' <= s[i] <= '9'
    requires (ValueIn(s, 10) as real) < OverflowBound
    ensures StringToNumber(s) == Finite(ValueIn(s, 10) as real)
  {
    TrimUnpadded(s);
    DigitsUnprefixed(s);
    ReadsAsSigned(s);
    SignedDigits(s);
  }

  /** Reading back the decimal text of a natural number gives the number. */
  lemma NumberOfShowNat(n: nat)
    requires (n as real) < OverflowBound
    ensures StringToNumber(ShowNat(n)) == Finite(n as real)
  {
    ShowNatValue(n);
    NumberOfDigits(ShowNat(n));
  }

  // ------------------------------------------------------ GET /api/score

  /** `req.query.limit`: missing, one value, a repeated parameter (an array)
      or a bracketed one (an object). */
  datatype QueryValue = Missing | Text(s: string) | List(items: seq<string>) | Object

  /** The text of an array: its items joined with commas. */
  function Join(items: seq<string>): string {
    if |items| == 0 then ""
    else if |items| == 1 then items[0]
    else Join(items[..|items| - 1]) + "," + items[|items| - 1]
  }

  /** `Number(req.query.limit || 15)`: a missing or empty value is falsy and
      becomes 15; an array (even an empty one, which is truthy) is converted
      through its text; an object is `NaN`. */
  function LimitNumber(q: QueryValue): (r: JsNumber)
    ensures q == Missing || q == Text("") ==> r == Finite(15.0)
    ensures q.Text? && q.s != "" ==> r == StringToNumber(q.s)
  {
    match q
    case Missing => Finite(15.0)
    case Text(s) => if s == "" then Finite(15.0) else StringToNumber(s)
    case List(items) => StringToNumber(Join(items))
    case Object => NaN
  }

  /** The `limit` of the GET handler as written: a finite number clamped to
      [1, 50], anything else 15. */
  function EffectiveLimit(q: QueryValue): (r: real)
    ensures 1.0 <= r <= 50.0
    ensures !IsFinite(LimitNumber(q)) ==> r == 15.0
    ensures IsFinite(LimitNumber(q)) && 1.0 <= LimitNumber(q).value <= 50.0 ==> r == LimitNumber(q).value
  {
    var x := LimitNumber(q);
    if IsFinite(x) then Min(Max(x.value, 1.0), 50.0) else 15.0
  }

  /** A missing or empty limit gives 15, and so does one that is not a
      number; "0" gives 1. */
  lemma LimitDefaults(s: string)
    requires StringToNumber(s) == NaN
    ensures EffectiveLimit(Missing) == 15.0 && EffectiveLimit(Text("")) == 15.0
    ensures EffectiveLimit(Text(s)) == 15.0
    ensures EffectiveLimit(Text("0")) == 1.0
  {
    NumberOfShowNat(0);
    assert ShowNat(0) == "0";
  }

  /** A limit written as a natural number is that number clamped to [1, 50]. */
  lemma LimitOfNat(n: nat)
    requires (n as real) < OverflowBound
    ensures EffectiveLimit(Text(ShowNat(n))) == Clamp(n as real, 1.0, 50.0)
  {
    NumberOfShowNat(n);
  }

  /** Text that starts with neither a digit nor a point is no decimal
      literal. */
  lemma NoLeadingDigit(u: string)
    requires |u| > 0 && CharDigit(u[0]) >= 10 && u[0] != '.'
    ensures UnsignedDecimal(u) == None
  {
    var k := Find(u, 'e', 'E');
    if k > 0 {
      var mantissa := u[..k];
      assert mantissa[0] == u[0];
      var d := Find(mantissa, '.', '.');
      assert d > 0;
      assert mantissa[..d][0] == u[0];
    }
  }

  /** Searching past a stretch without either character. */
  lemma {:induction false} FindPast(a: string, b: string, c: char, d: char)
    requires forall i :: 0 <= i < |a| ==> a[i] != c && a[i] != d
    ensures Find(a + b, c, d) == |a| + Find(b, c, d)
    decreases |a|
  {
    if |a| > 0 {
      assert (a + b)[1..] == a[1..] + b;
      FindPast(a[1..], b, c, d);
    } else {
      assert a + b == b;
    }
  }

  /** Decimal digits are neither an exponent mark nor a point. */
  lemma DigitsAreNotMarks(w: string)
    requires AllDigitsIn(w, 10)
    ensures forall i :: 0 <= i < |w| ==> w[i] != 'e' && w[i] != 'E' && w[i] != '.'
  {
  }

  lemma MarksAfterWhole(w: string, f: string)
    requires AllDigitsIn(w, 10)
    ensures Find(w + ("." + f), 'e', 'E') == |w| + Find("." + f, 'e', 'E')
    ensures Find(w + ("." + f), '.', '.') == |w|
  {
    DigitsAreNotMarks(w);
    FindPast(w, "." + f, 'e', 'E');
    FindPast(w, "." + f, '.', '.');
  }

  lemma MarksInFraction(f: string)
    requires AllDigitsIn(f, 10)
    ensures Find("." + f, 'e', 'E') == 1 + |f|
  {
    DigitsAreNotMarks(f);
    FindPast(".", f, 'e', 'E');
    assert Find(f, 'e', 'E') == |f|;
  }

  /** Digits, a point and digits make a decimal literal of the whole part
      plus the fraction. */
  lemma PointedDecimal(w: string, f: string)
    requires |w| > 0 && AllDigitsIn(w, 10) && |f| > 0 && AllDigitsIn(f, 10)
    ensures UnsignedDecimal(w + ("." + f)) == Some(DecimalValue(w, f, 0))
  {
    var u := w + ("." + f);
    MarksAfterWhole(w, f);
    MarksInFraction(f);
    assert u[..|u|] == u;
    assert ExponentOf(u) == Some(0);
    assert u[..|w|] == w;
    assert u[|w| + 1..] == f;
    assert UnsignedDecimal(u) == Mantissa(u, Some(0));
    assert Mantissa(u, Some(0)) == Some(DecimalValue(w, f, 0));
  }

  /** Without an exponent part the value is the whole part plus the
      fraction. */
  lemma UnscaledValue(w: string, f: string)
    ensures DecimalValue(w, f, 0) == ValueIn(w, 10) as real + ValueIn(f, 10) as real / Pow10(|f|) as real
  {
    assert Scale(0) == 1.0 by { assert Pow10(0) == 1; }
  }

  /** Text whose first character cannot begin a number literal, such as
      "abc", is `NaN` and so falls back to 15. */
  lemma NonNumericLimitIsDefault(s: string)
    requires |s| > 0 && CharDigit(s[0]) >= 10 && !IsJsSpace(s[0])
    requires s[0] != '.' && s[0] != '+' && s[0] != '-' && s[0] != 'I'
    ensures StringToNumber(s) == NaN
    ensures EffectiveLimit(Text(s)) == 15.0
  {
    var t := Trim(s);
    assert TrimStart(s) == s;
    assert |t| > 0 && t[0] == s[0];
    assert !IsPrefixed(t);
    assert t != "Infinity" by { assert t[0] != "Infinity"[0]; }
    NoLeadingDigit(t);
  }

  /** A limit written as digits, a point and digits whose value lies in
      [1, 50] passes the clamp unchanged. */
  lemma PointedLimitPassesThrough(w: string, f: string)
    requires |w| > 0 && AllDigitsIn(w, 10) && |f| > 0 && AllDigitsIn(f, 10)
    requires 1.0 <= DecimalValue(w, f, 0) <= 50.0
    ensures EffectiveLimit(Text(w + ("." + f))) == DecimalValue(w, f, 0)
  {
    var s := w + ("." + f);
    assert s[0] == w[0] && s[|s| - 1] == f[|f| - 1];
    TrimUnpadded(s);
    assert !IsPrefixed(s) by {
      if |w| > 1 { assert s[1] == w[1]; } else { assert s[1] == '.'; }
    }
    ReadsAsSigned(s);
    assert s != "Infinity" by { assert s[0] != "Infinity"[0]; }
    PointedDecimal(w, f);
  }

  /** The as-written limit need not be a whole number: "2.5" passes the
      clamp unchanged and reaches `LIMIT ?` as 2.5, which is not a row
      count. */
  lemma FractionalLimitPassesThrough(w: string, f: string)
    requires w == "2" && f == "5"
    ensures EffectiveLimit(Text(w + ("." + f))) == 2.5
    ensures !IsWhole(EffectiveLimit(Text(w + ("." + f))))
  {
    assert ValueIn(w, 10) == 2 by { assert w[..0] == ""; }
    assert ValueIn(f, 10) == 5 by { assert f[..0] == ""; }
    assert Pow10(|f|) == 10 by { assert |f| == 1; assert Pow10(1) == 10; }
    UnscaledValue(w, f);
    assert DecimalValue(w, f, 0) == 2.0 + 5.0 / 10.0;
    PointedLimitPassesThrough(w, f);
    assert (2.5).Floor == 2;
  }

  /** Whether a limit is a whole row count. */
  predicate IsWhole(x: real) { x.Floor as real == x }

  /** The row count the handler evidently means: the clamped limit rounded
      down to a whole number, still in [1, 50]. */
  function QueryLimit(q: QueryValue): (n: nat)
    ensures 1 <= n <= 50
    ensures n as real <= EffectiveLimit(q) < n as real + 1.0
    ensures IsWhole(EffectiveLimit(q)) ==> n as real == EffectiveLimit(q)
  {
    EffectiveLimit(q).Floor
  }

  /** A stored row of the `scores` table. */
  datatype Score = Score(id: nat, name: string, timeMs: int, createdAt: int)

  /** `ORDER BY time_ms ASC, created_at ASC`. */
  function ByTime(s: Score): Key { Key(s.timeMs as real, s.createdAt as real) }

  /** The query of the GET handler over the store: the `limit` rows that
      come first by time, then by creation, in that order. Rows equal on both
      columns come out in store order; the database leaves their order open. */
  function TopScores(store: seq<Score>, limit: nat): (r: seq<Score>)
    ensures |r| == if limit < |store| then limit else |store|
    ensures SortedBy(r, ByTime)
    ensures multiset(r) <= multiset(store)
    ensures forall x, i :: x in multiset(store) - multiset(r) && 0 <= i < |r| ==> KeyLe(ByTime(r[i]), ByTime(x))
  {
    var sorted := SortBy(store, ByTime);
    var k := if limit < |store| then limit else |store|;
    PrefixIsTop(sorted, k);
    sorted[..k]
  }

  /** A prefix of a sorted sequence is sorted, and no row left out comes
      before a row kept. */
  lemma PrefixIsTop(s: seq<Score>, k: nat)
    requires SortedBy(s, ByTime) && k <= |s|
    ensures SortedBy(s[..k], ByTime)
    ensures multiset(s[..k]) <= multiset(s)
    ensures forall x, i :: x in multiset(s) - multiset(s[..k]) && 0 <= i < k ==> KeyLe(ByTime(s[..k][i]), ByTime(x))
  {
    assert s == s[..k] + s[k..];
    assert multiset(s) == multiset(s[..k]) + multiset(s[k..]);
    forall x, i | x in multiset(s) - multiset(s[..k]) && 0 <= i < k
      ensures KeyLe(ByTime(s[..k][i]), ByTime(x))
    {
      assert x in multiset(s[k..]);
      var j :| 0 <= j < |s[k..]| && s[k..][j] == x;
      assert s[k + j] == x;
    }
  }

  /** The scores list as served: the first rows by time and creation, as
      many as the corrected limit asks for or as are stored, never more than
      50; 15 when no limit is given. */
  function Leaderboard(store: seq<Score>, q: QueryValue): (r: seq<Score>)
    ensures |r| == if QueryLimit(q) < |store| then QueryLimit(q) else |store|
    ensures |r| <= 50
    ensures q.Missing? ==> |r| == if 15 < |store| then 15 else |store|
    ensures SortedBy(r, ByTime)
    ensures multiset(r) <= multiset(store)
    ensures forall x, i :: x in multiset(store) - multiset(r) && 0 <= i < |r| ==> KeyLe(ByTime(r[i]), ByTime(x))
  {
    DefaultQueryLimit();
    TopScores(store, QueryLimit(q))
  }

  /** With no `limit` parameter the query asks for 15 rows. */
  lemma DefaultQueryLimit()
    ensures QueryLimit(Missing) == 15
  {
    assert EffectiveLimit(Missing) == 15.0;
    assert IsWhole(15.0);
  }

  // ----------------------------------------------------- POST /api/score

  /** `req.body?.name` after `|| ""` and `String(...)`: a missing or falsy
      name is the empty string; any other value is given by its text. */
  datatype NameField = NoName | NameText(text: string)

  function NameString(n: NameField): string {
    match n
    case NoName => ""
    case NameText(t) => t
  }

  /** A value of the JSON body: absent, `null`, a boolean, a number
      (its exact literal value) or a string. */
  datatype JsonValue = Absent | Null | Bool(b: bool) | Num(x: real) | Str(s: string)

  /** `Number(req.body?.timeMs)`. */
  function TimeNumber(v: JsonValue): (r: JsNumber)
    ensures v.Absent? ==> r == NaN
    ensures v.Null? ==> r == Finite(0.0)
    ensures v.Num? && -OverflowBound < v.x < OverflowBound ==> r == Finite(v.x)
  {
    match v
    case Absent => NaN
    case Null => Finite(0.0)
    case Bool(b) => Finite(if b then 1.0 else 0.0)
    case Num(x) => Rounded(x)
    case Str(s) => StringToNumber(s)
  }

  const MaxNameLength: nat := 50

  /** The name as stored: trimmed, then cut to its first 50 characters. */
  function NormalizeName(n: NameField): (r: string)
    ensures |r| <= MaxNameLength && |r| <= |Trim(NameString(n))|
    ensures r == Trim(NameString(n))[..|r|]
    ensures |r| == Min(MaxNameLength as real, |Trim(NameString(n))| as real) as int
    ensures |r| > 0 ==> !IsJsSpace(r[0])
  {
    var t := Trim(NameString(n));
    if |t| <= MaxNameLength then t else t[..MaxNameLength]
  }

  datatype Payload = Payload(name: NameField, timeMs: JsonValue)

  /** The outcome of the POST handler: `invalid_payload`, or the row
      inserted. */
  datatype Submission = Rejected | Accepted(name: string, timeMs: int)

  /** The POST handler: rejected when the trimmed name is empty or the time
      is not a finite positive number; otherwise the normalised name and the
      rounded time are inserted. */
  function Submit(p: Payload): (r: Submission)
    ensures r.Rejected? <==>
      Trim(NameString(p.name)) == "" || !IsFinite(TimeNumber(p.timeMs)) || TimeNumber(p.timeMs).value <= 0.0
    ensures r.Accepted? ==> 1 <= |r.name| <= MaxNameLength && r.name == NormalizeName(p.name)
    ensures r.Accepted? ==>
      var t := TimeNumber(p.timeMs).value;
      0 <= r.timeMs && t - 0.5 < r.timeMs as real <= t + 0.5
  {
    var name := NormalizeName(p.name);
    var timeMs := TimeNumber(p.timeMs);
    if name == "" || !IsFinite(timeMs) || timeMs.value <= 0.0 then Rejected
    else Accepted(name, Round(timeMs.value))
  }

  /** A positive time under half a millisecond is accepted and stored as 0. */
  lemma TinyTimeStoredAsZero(name: string, t: real)
    requires 0 < |name| <= MaxNameLength && !IsJsSpace(name[0]) && !IsJsSpace(name[|name| - 1])
    requires 0.0 < t < 0.5
    ensures Submit(Payload(NameText(name), Num(t))) == Accepted(name, 0)
  {
    TrimUnpadded(name);
    RoundOfSmallPositiveIsZero(t);
  }

  /** The cut to 50 characters comes after the trim, so a stored name can end
      in white space. */
  lemma StoredNameCanEndInSpace(front: string, last: char)
    requires |front| == 49 && !IsJsSpace(front[0]) && !IsJsSpace(last)
    ensures var r := Submit(Payload(NameText(front + [' ', last]), Num(1000.0)));
      r.Accepted? && r.name == front + [' '] && IsJsSpace(r.name[|r.name| - 1])
  {
    var s := front + [' ', last];
    assert s[0] == front[0] && s[|s| - 1] == last;
    TrimUnpadded(s);
    assert NormalizeName(NameText(s)) == s[..50];
    assert s[..50] == front + [' '];
  }
}
