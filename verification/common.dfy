/** Failure-carrying results and decimal rendering, shared by every module of the model. */
module Common {

  datatype Option<+T> = None | Some(value: T)

  /** The outcome of a translation step: a value, or the message of the exception the
      source throws at that point. */
  datatype Result<+T> = Ok(value: T) | Err(msg: string) {
    predicate IsFailure() { Err? }
    function PropagateFailure<U>(): Result<U> requires Err? { Err(msg) }
    function Extract(): T requires Ok? { value }
  }

  /** The outcome of a step that produces nothing but may throw. */
  datatype Outcome = Pass | Fail(msg: string)

  function Magnitude(x: int): (r: int)
    ensures r >= 0
  {
    if x < 0 then -x else x
  }

  /** The remainder of division truncating toward zero (C's %, LLVM's srem): it has the
      sign of the dividend and is smaller than |b|. */
  function TruncRem(a: int, b: int): int
    requires b != 0
  {
    if a >= 0 then a % Magnitude(b) else -((-a) % Magnitude(b))
  }

  lemma MulMonotone(u: int, v: int, b: int)
    requires u <= v && 0 <= b
    ensures u * b <= v * b
  {
  }

  lemma DivModOfMulAdd(q: int, b: int, a: int)
    requires 0 <= a < b
    ensures (q * b + a) / b == q && (q * b + a) % b == a
  {
    var r := q * b + a;
    var q', a' := r / b, r % b;
    assert r == q' * b + a';
    assert (q' - q) * b == a - a';
    if q' - q >= 1 {
      MulMonotone(1, q' - q, b);
    } else if q' - q <= -1 {
      MulMonotone(q' - q, -1, b);
    }
  }

  /** Truncating division of an exact multiple is the exact quotient. */
  lemma TruncDivExact(k: int, b: int)
    requires b != 0
    ensures TruncDiv(k * b, b) == k
  {
    var a := k * b;
    var mk, mb := Magnitude(k), Magnitude(b);
    assert Magnitude(a) == mk * mb by {
      if k < 0 && b < 0 { assert a == (-k) * (-b); }
      else if k < 0 { assert -a == (-k) * b; }
      else if b < 0 { assert -a == k * (-b); }
    }
    DivModOfMulAdd(mk, mb, 0);
    if k != 0 {
      MulNonZeroSign(k, b);
    }
  }

  lemma MulNonZeroSign(k: int, b: int)
    requires k != 0 && b != 0
    ensures (k * b < 0) == ((k < 0) != (b < 0))
  {
    if k > 0 && b > 0 { MulMonotone(1, k, b); }
    else if k < 0 && b < 0 { MulMonotone(1, -k, -b); assert k * b == (-k) * (-b); }
    else if k > 0 { MulMonotone(1, k, -b); assert k * b == -(k * (-b)); }
    else { MulMonotone(1, -k, b); assert k * b == -((-k) * b); }
  }

  /** C integer division, truncating toward zero. */
  function TruncDiv(a: int, b: int): int
    requires b != 0
  {
    var q := Magnitude(a) / Magnitude(b);
    if (a < 0) == (b < 0) then q else -q
  }

  function DigitChar(d: nat): char
    requires d < 10
  {
    "0123456789"[d]
  }

  /** Decimal rendering of a non-negative number, as std::to_string writes it. */
  function NatToString(n: nat): (s: string)
    ensures 0 < |s|
    ensures n < 10 <==> |s| == 1
    decreases n
  {
    if n < 10 then [DigitChar(n)] else NatToString(n / 10) + [DigitChar(n % 10)]
  }

  /** Distinct numbers have distinct renderings. */
  lemma {:induction false} NatToStringInjective(a: nat, b: nat)
    requires NatToString(a) == NatToString(b)
    ensures a == b
    decreases a
  {
    if a >= 10 && b >= 10 {
      var sa, sb := NatToString(a), NatToString(b);
      assert sa[|sa| - 1] == DigitChar(a % 10) && sb[|sb| - 1] == DigitChar(b % 10);
      assert a % 10 == b % 10;
      assert sa[..|sa| - 1] == NatToString(a / 10);
      assert sb[..|sb| - 1] == NatToString(b / 10);
      NatToStringInjective(a / 10, b / 10);
    }
  }
}
