/** The part of the polyhedral model that both code generators read: statements with
    their finite extents, storage order and buffer size, the expression tree each
    statement computes, and the affine access pattern of a read of another statement. */
module PolyModel {
  import opened Common

  /** Extent of a dimension without an upper bound (common/ph_model.hpp). */
  const Infinite: int := -1

  datatype PrimType = Boolean | Integer | Real | Complex

  datatype PrimOp =
    | Negate | Add | Subtract | Multiply | Divide | DivideInteger | Modulo | Raise
    | Floor | Ceil | Abs | Max | Min
    | Log | Log2 | Log10 | Exp | Exp2 | Sqrt | Sin | Cos | Tan | Asin | Acos | Atan
    | RealPart | ImagPart | ToReal32 | ToReal64 | ToComplex32 | ToComplex64
    | LogicAnd | LogicOr | Conditional
    | CompareG | CompareGeq | CompareL | CompareLeq | CompareEq | CompareNeq

  /** A name for each operation, as the "Unexpected primitive op" error shows it: the
      built-in function name for those that have one, a lower-case name for the rest. */
  function PrimOpName(op: PrimOp): string
  {
    match op
    case Negate => "negate" case Add => "add" case Subtract => "subtract"
    case Multiply => "multiply" case Divide => "divide" case DivideInteger => "divide_integer"
    case Modulo => "modulo" case Raise => "raise" case Floor => "floor" case Ceil => "ceil"
    case Abs => "abs" case Max => "max" case Min => "min"
    case Log => "log" case Log2 => "log2" case Log10 => "log10" case Exp => "exp" case Exp2 => "exp2"
    case Sqrt => "sqrt" case Sin => "sin" case Cos => "cos" case Tan => "tan"
    case Asin => "asin" case Acos => "acos" case Atan => "atan"
    case RealPart => "real" case ImagPart => "imag"
    case ToReal32 => "real32" case ToReal64 => "real64"
    case ToComplex32 => "complex32" case ToComplex64 => "complex64"
    case LogicAnd => "logic_and" case LogicOr => "logic_or" case Conditional => "conditional"
    case CompareG => "compare_g" case CompareGeq => "compare_geq" case CompareL => "compare_l"
    case CompareLeq => "compare_leq" case CompareEq => "compare_eq" case CompareNeq => "compare_neq"
  }

  /** A floating-point literal, kept as its text: the model never evaluates reals. */
  datatype RealLiteral = RealLiteral(text: string)

  /** An affine map from an input tuple to an output tuple,
      out[o] = constants[o] + sum over i of coefficients[i][o] * in[i]. */
  datatype Mapping = Mapping(inputDim: nat, outputDim: nat,
                             coefficients: seq<seq<int>>, constants: seq<int>)
  {
    predicate Valid() {
      && |coefficients| == inputDim
      && |constants| == outputDim
      && forall i :: 0 <= i < inputDim ==> |coefficients[i]| == outputDim
    }

    function Coefficient(i: nat, o: nat): int
      requires Valid() && i < inputDim && o < outputDim
    {
      coefficients[i][o]
    }

    function Constant(o: nat): int
      requires Valid() && o < outputDim
    {
      constants[o]
    }
  }

  /** A statement's expression tree. Every node carries its result type. A read of
      another statement names it by its position in the statement list (the pointer). */
  datatype Expr =
    | Primitive(ty: PrimType, op: PrimOp, operands: seq<Expr>)
    | InputAccess(ty: PrimType, input: int)
    | IteratorAccess(ty: PrimType, dimension: int, ratio: int, offset: int)
    | StmtAccess(ty: PrimType, target: nat, pattern: Mapping)
    | ReductionAccess(ty: PrimType)
    | IntConst(ty: PrimType, intValue: int)
    | RealConst(ty: PrimType, realValue: RealLiteral)
    | BoolConst(ty: PrimType, boolValue: bool)

  /** A statement as the code generators see it: `domain` holds one extent per
      dimension (Infinite for an unbounded one), `dimension` is the storage dimension
      moved to the front before flattening, `bufferSize` counts slices kept in the
      circular buffer. */
  datatype Statement = Statement(name: string, domain: seq<int>, expr: Option<Expr>,
                                 bufferSize: int, dimension: int)

  /** The linear part of output o: sum over the first n inputs of coefficient * input. */
  function AffineSum(m: Mapping, index: seq<int>, o: nat, n: nat): int
    requires m.Valid() && o < m.outputDim && n <= m.inputDim && n <= |index|
  {
    if n == 0 then 0 else AffineSum(m, index, o, n - 1) + m.Coefficient(n - 1, o) * index[n - 1]
  }

  /** The point the access pattern maps `index` to. */
  function AffineImage(m: Mapping, index: seq<int>): seq<int>
    requires m.Valid() && |index| == m.inputDim
  {
    seq(m.outputDim, o requires 0 <= o < m.outputDim => m.Constant(o) + AffineSum(m, index, o, m.inputDim))
  }

  /** The access pattern that reads the same point shifted by `shift`. */
  function Translation(shift: seq<int>): (m: Mapping)
    ensures m.Valid() && m.inputDim == m.outputDim == |shift|
  {
    Mapping(|shift|, |shift|,
            seq(|shift|, i requires 0 <= i < |shift| =>
                  seq(|shift|, o requires 0 <= o < |shift| => if i == o then 1 else 0)),
            shift)
  }

  lemma {:induction false} TranslationSum(shift: seq<int>, index: seq<int>, o: nat, n: nat)
    requires |index| == |shift| && o < |shift| && n <= |shift|
    ensures AffineSum(Translation(shift), index, o, n) == if o < n then index[o] else 0
  {
    if n > 0 {
      TranslationSum(shift, index, o, n - 1);
    }
  }

  /** A translation pattern reads index + shift, coordinate by coordinate. */
  lemma TranslationImage(shift: seq<int>, index: seq<int>)
    requires |index| == |shift|
    ensures |AffineImage(Translation(shift), index)| == |index|
    ensures forall o :: 0 <= o < |index| ==> AffineImage(Translation(shift), index)[o] == index[o] + shift[o]
  {
    forall o | 0 <= o < |index|
      ensures AffineImage(Translation(shift), index)[o] == index[o] + shift[o]
    {
      TranslationSum(shift, index, o, |shift|);
    }
  }

  /** The linear part of an access pattern is additive in the index. */
  lemma {:induction false} AffineSumAdditive(m: Mapping, a: seq<int>, b: seq<int>, c: seq<int>, o: nat, n: nat)
    requires m.Valid() && o < m.outputDim && n <= m.inputDim
    requires |a| == |b| == |c| == m.inputDim
    requires forall i :: 0 <= i < |c| ==> c[i] == a[i] + b[i]
    ensures AffineSum(m, c, o, n) == AffineSum(m, a, o, n) + AffineSum(m, b, o, n)
  {
    if n > 0 {
      AffineSumAdditive(m, a, b, c, o, n - 1);
      var k := m.Coefficient(n - 1, o);
      assert k * c[n - 1] == k * a[n - 1] + k * b[n - 1];
    }
  }

  /** Both code generators' lookup of a statement by name: the first one so named. */
  method FindStatement(statements: seq<Statement>, name: string) returns (p: nat)
    requires exists i :: 0 <= i < |statements| && statements[i].name == name
    ensures p < |statements| && statements[p].name == name
    ensures forall j :: 0 <= j < p ==> statements[j].name != name
  {
    p := 0;
    while statements[p].name != name
      invariant p < |statements|
      invariant forall j :: 0 <= j < p ==> statements[j].name != name
      invariant exists i :: p <= i < |statements| && statements[i].name == name
      decreases |statements| - p
    {
      p := p + 1;
    }
  }
}
