/**
 * The few pieces of JavaScript value semantics the two components rely on:
 * UTF-16 strings, `charCodeAt`, array indexing that yields `undefined`,
 * truthiness, and number arithmetic with NaN, the truncating `%` and
 * `Math.floor`.
 *
 * Numbers are modelled as real numbers plus NaN. Infinities never arise from
 * the operands used here and are not modelled.
 */
module JsValues {
  import opened Wrappers

  /** One UTF-16 code unit, as returned by `String.prototype.charCodeAt`. */
  type CodeUnit = c: int | 0 <= c < 0x1_0000

  /** The code unit of '/'. */
  const Slash: CodeUnit := 0x2F

  /** A JavaScript string: a sequence of UTF-16 code units. */
  type JsString = seq<CodeUnit>

  /** The code units of a Dafny string all of whose characters lie in the Basic Multilingual Plane. */
  function Units(s: string): (r: JsString)
    requires forall i :: 0 <= i < |s| ==> (s[i] as int) < 0x1_0000
    ensures |r| == |s|
    ensures forall i :: 0 <= i < |s| ==> r[i] == s[i] as int
  {
    seq(|s|, i requires 0 <= i < |s| => s[i] as int)
  }

  /** A string is truthy exactly when it is non-empty; `undefined` is falsy. */
  function TruthyString(s: Option<JsString>): (truthy: bool)
    ensures truthy <==> s != None && s != Some([])
  {
    s.Some? && |s.value| > 0
  }

  /** An optional boolean is truthy exactly when it is present and `true`. */
  function TruthyBool(b: Option<bool>): (truthy: bool)
    ensures truthy <==> b != None && b != Some(false)
  {
    match b
    case Some(v) => v
    case None => false
  }

  /** `xs[i]`: the element at `i`, or `undefined` when `i` is out of range. */
  function At<T>(xs: seq<T>, i: int): (r: Option<T>)
    ensures r.Some? <==> 0 <= i < |xs|
    ensures r.Some? ==> r.value == xs[i]
  {
    if 0 <= i < |xs| then Some(xs[i]) else None
  }

  /** A JavaScript number (without the infinities). */
  datatype Number = Finite(value: real) | NaN

  /** The number holding the integer `n`. */
  function Int(n: int): Number
  {
    Finite(n as real)
  }

  /** `s.charCodeAt(i)`: the code unit at `i`, or NaN when `i` is out of range. */
  function CharCodeAt(s: JsString, i: int): (r: Number)
    ensures r.NaN? <==> !(0 <= i < |s|)
    ensures 0 <= i < |s| ==> r == Int(s[i])
  {
    if 0 <= i < |s| then Int(s[i]) else NaN
  }

  /** Rounds towards zero. */
  function Trunc(x: real): (r: int)
    ensures 0.0 <= x ==> 0 <= r && r as real <= x < r as real + 1.0
    ensures x < 0.0 ==> r <= 0 && r as real - 1.0 < x <= r as real
  {
    if x >= 0.0 then x.Floor else -((-x).Floor)
  }

  /**
   * The `%` operator: `a - b * trunc(a / b)`, so the result takes the sign of
   * the dividend; NaN when an operand is NaN or the divisor is zero.
   */
  function Rem(a: Number, b: Number): (r: Number)
    ensures r.NaN? <==> (a.NaN? || b.NaN? || b.value == 0.0)
    ensures r.Finite? && a.value >= 0.0 && b.value > 0.0 ==> 0.0 <= r.value < b.value
  {
    if a.NaN? || b.NaN? || b.value == 0.0 then NaN
    else
      var q := a.value / b.value;
      RemBounds(a.value, b.value);
      Finite(a.value - b.value * (Trunc(q) as real))
  }

  lemma RemBounds(a: real, b: real)
    requires b != 0.0
    ensures a >= 0.0 && b > 0.0 ==> 0.0 <= a - b * (Trunc(a / b) as real) < b
  {
    if a >= 0.0 && b > 0.0 {
      var q := a / b;
      assert q >= 0.0;
      var t := Trunc(q) as real;
      var f := q - t;
      assert 0.0 <= f < 1.0;
      assert a == b * q;
      var r := a - b * t;
      assert r == b * f;
      assert 0.0 <= r;
      assert b - r == b * (1.0 - f);
      assert b * (1.0 - f) > 0.0;
      assert r < b;
    }
  }

  /** `a + b`, NaN-propagating. */
  function Add(a: Number, b: Number): (r: Number)
    ensures r.NaN? <==> (a.NaN? || b.NaN?)
    ensures r.Finite? ==> r.value == a.value + b.value
  {
    if a.NaN? || b.NaN? then NaN else Finite(a.value + b.value)
  }

  /** `a * b`, NaN-propagating. */
  function Mul(a: Number, b: Number): (r: Number)
    ensures r.NaN? <==> (a.NaN? || b.NaN?)
    ensures r.Finite? ==> r.value == a.value * b.value
  {
    if a.NaN? || b.NaN? then NaN else Finite(a.value * b.value)
  }

  /** `Math.floor(x)`: the greatest integer not above `x`; NaN stays NaN. */
  function Floor(x: Number): (r: Number)
    ensures r.NaN? <==> x.NaN?
    ensures r.Finite? ==> r.value <= x.value < r.value + 1.0
    ensures r.Finite? ==> r == Int(r.value.Floor)
  {
    if x.NaN? then NaN else Int(x.value.Floor)
  }

  /** On integers `Math.floor` changes nothing. */
  lemma FloorOfInt(n: int)
    ensures Floor(Int(n)) == Int(n)
  {
  }

  /** Casting to real commutes with multiplication. */
  lemma CastProduct(b: int, q: int)
    ensures (b * q) as real == (b as real) * (q as real)
  {
  }

  /** Dividing both sides of a bound by a positive number keeps the bound. */
  lemma DivideOutPositive(u: real, v: real, k: real)
    requires k > 0.0
    ensures v * k <= u ==> v <= u / k
    ensures u < v * k ==> u / k < v
  {
    assert (u / k) * k == u;
  }

  /** The integer quotient brackets the real quotient from below. */
  lemma QuotientBracket(a: int, b: int)
    requires a >= 0 && b > 0
    ensures (a / b) as real <= (a as real) / (b as real) < (a / b) as real + 1.0
  {
    var q := a / b;
    assert b * q <= a < b * (q + 1);
    CastProduct(b, q);
    CastProduct(b, q + 1);
    DivideOutPositive(a as real, q as real, b as real);
    DivideOutPositive(a as real, (q + 1) as real, b as real);
  }

  /**
   * On a non-negative integer dividend and a positive integer divisor the
   * truncating `%` agrees with Dafny's Euclidean `%`.
   */
  lemma RemOfNaturals(a: int, b: int)
    requires a >= 0 && b > 0
    ensures Rem(Int(a), Int(b)) == Int(a % b)
  {
    var q := a / b;
    QuotientBracket(a, b);
    var x := (a as real) / (b as real);
    assert 0.0 <= x;
    assert x.Floor == q;
    assert Trunc(x) == q;
    CastProduct(b, q);
    assert (a as real) - (b as real) * (q as real) == (a - b * q) as real;
    assert a - b * q == a % b;
  }
}
