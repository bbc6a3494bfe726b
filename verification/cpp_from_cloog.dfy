/** Translation of the loop nest CLooG produces (its abstract syntax, CLAST) into C++
    statements: blocks, guards, for loops and assignments become their C++
    counterparts, and each scheduled statement instance is handed to a callback (or
    written out as a comment) with the index expressions of the instance. */
module CppFromCloog {
  import opened Common
  import opened CppAst

  datatype BinaryKind = FloorDiv | CeilDiv | ExactDiv | Mod
  /** Unknown stands for a reduction kind outside the three CLooG defines. */
  datatype ReductionKind = Sum | Min | Max | Unknown

  /** CLAST expressions. A term is a constant coefficient, optionally times a
      sub-expression; the divisor of a binary expression is a constant. */
  datatype ClastExpr =
    | Name(name: string)
    | Term(coefficient: int, factor: Option<ClastExpr>)
    | Binary(kind: BinaryKind, lhs: ClastExpr, divisor: int)
    | Reduction(rkind: ReductionKind, elts: seq<ClastExpr>)

  /** lhs <= rhs when sign < 0, lhs >= rhs when sign > 0, lhs == rhs otherwise. */
  datatype Equation = Equation(lhs: ClastExpr, rhs: ClastExpr, sign: int)

  /** One substitution of a statement instance: an iterator of the statement and the
      expression it takes at this point of the loop nest. */
  datatype Substitution = Substitution(target: string, rhs: ClastExpr)

  /** CLAST statements. The successors of a statement in CLAST's linked lists are the
      following elements of the enclosing sequence; the root holds the statements
      that follow it. */
  datatype ClastStmt =
    | Root(rest: seq<ClastStmt>)
    | BlockStmt(body: seq<ClastStmt>)
    | Assignment(target: string, value: ClastExpr)
    | Guard(thenPart: seq<ClastStmt>, equations: seq<Equation>)
    | Loop(counter: string, lower: ClastExpr, upper: ClastExpr, stride: int, loopBody: seq<ClastStmt>)
    | User(statement: string, substitutions: seq<Substitution>)

  const UnexpectedBinary := "Unexpected binary operation type."
  const UnexpectedReduction := "Unexpected reduction type."

  // ---------------------------------------------------------------------------
  // What CLAST expressions and guards mean.
  // ---------------------------------------------------------------------------

  /** The integer a CLAST expression denotes; None for an unbound name or a
      division that is undefined (divisor not positive, inexact exact division). */
  function ClastValue(e: ClastExpr, env: map<string, int>): Option<int>
    decreases e, 1
  {
    match e
    case Name(x) => if x in env then Some(env[x]) else None
    case Term(c, f) =>
      if f.None? then Some(c)
      else
        var v := ClastValue(f.value, env);
        if v.None? then None else Some(c * v.value)
    case Binary(k, l, b) =>
      var a := ClastValue(l, env);
      if a.None? || b <= 0 then None
      else (match k
            case FloorDiv => Some(a.value / b)
            case CeilDiv => Some(-((-a.value) / b))
            case ExactDiv => if a.value % b == 0 then Some(a.value / b) else None
            case Mod => Some(a.value % b))
    case Reduction(k, elts) =>
      if |elts| == 0 then Some(0) else ReductionValue(k, elts, env)
  }

  function Reduced(k: ReductionKind, x: int, y: int): Option<int>
  {
    match k
    case Sum => Some(x + y)
    case Min => Some(if x <= y then x else y)
    case Max => Some(if x >= y then x else y)
    case Unknown => None
  }

  /** The sum, minimum or maximum of a non-empty list of expressions. */
  function ReductionValue(k: ReductionKind, elts: seq<ClastExpr>, env: map<string, int>): Option<int>
    requires |elts| >= 1
    decreases elts, 0
  {
    if |elts| == 1 then ClastValue(elts[0], env)
    else
      var init := ReductionValue(k, elts[..|elts| - 1], env);
      var last := ClastValue(elts[|elts| - 1], env);
      if init.None? || last.None? then None else Reduced(k, init.value, last.value)
  }

  function EquationTruth(eq: Equation, env: map<string, int>): Option<bool>
  {
    var l := ClastValue(eq.lhs, env);
    var r := ClastValue(eq.rhs, env);
    if l.None? || r.None? then None
    else if eq.sign < 0 then Some(l.value <= r.value)
    else if eq.sign > 0 then Some(l.value >= r.value)
    else Some(l.value == r.value)
  }

  /** No modulo anywhere in the expression. */
  predicate ModFree(e: ClastExpr)
    decreases e
  {
    match e
    case Name(_) => true
    case Term(_, f) => f.None? || ModFree(f.value)
    case Binary(k, l, _) => !k.Mod? && ModFree(l)
    case Reduction(_, elts) => forall i :: 0 <= i < |elts| ==> ModFree(elts[i])
  }

  /** No floor or ceiling division anywhere in the expression, and no reduction of an
      unknown kind over two or more elements. */
  predicate Translatable(e: ClastExpr)
    decreases e
  {
    match e
    case Name(_) => true
    case Term(_, f) => f.None? || Translatable(f.value)
    case Binary(k, l, _) => (k.ExactDiv? || k.Mod?) && Translatable(l)
    case Reduction(k, elts) =>
      (!k.Unknown? || |elts| < 2) && forall i :: 0 <= i < |elts| ==> Translatable(elts[i])
  }

  // ---------------------------------------------------------------------------
  // The translation of expressions and equations.
  // ---------------------------------------------------------------------------

  /** The binary case as written: the cases for exact division and modulo fall
      through into the default, so every binary expression throws. */
  function BinaryAsWritten(k: BinaryKind, lhs: CExpr, divisor: int): Result<CExpr>
  {
    match k
    case FloorDiv => Err("Floor-of-division not implemented.")
    case CeilDiv => Err("Ceiling-of-division not implemented.")
    case ExactDiv => Err(UnexpectedBinary)
    case Mod => Err(UnexpectedBinary)
  }

  lemma BinaryAsWrittenAlwaysFails(k: BinaryKind, lhs: CExpr, divisor: int)
    ensures BinaryAsWritten(k, lhs, divisor).Err?
    ensures (k.ExactDiv? || k.Mod?) ==> BinaryAsWritten(k, lhs, divisor) == Err(UnexpectedBinary)
  {
  }

  /** The binary case as intended: exact division becomes C's `/` and modulo C's `%`
      (a remainder, which is what the source emits for modulo). */
  function BinaryToCpp(k: BinaryKind, lhs: CExpr, divisor: int): (r: Result<CExpr>)
    ensures r.Ok? <==> (k.ExactDiv? || k.Mod?)
  {
    match k
    case FloorDiv => Err("Floor-of-division not implemented.")
    case CeilDiv => Err("Ceiling-of-division not implemented.")
    case ExactDiv => Ok(BinOp(Op.Div, lhs, IntLit(divisor)))
    case Mod => Ok(BinOp(Rem, lhs, IntLit(divisor)))
  }

  /** The C++ expression for a CLAST expression (the left operand of a binary
      expression is translated before the operation is looked at). */
  function ExprToCpp(e: ClastExpr): Result<CExpr>
    decreases e, 1
  {
    match e
    case Name(x) => Ok(Id(x))
    case Term(c, f) =>
      if f.None? then Ok(IntLit(c))
      else
        var v :- ExprToCpp(f.value);
        Ok(BinOp(Mult, IntLit(c), v))
    case Binary(k, l, b) =>
      var lhs :- ExprToCpp(l);
      BinaryToCpp(k, lhs, b)
    case Reduction(k, elts) =>
      if |elts| < 1 then Ok(IntLit(0)) else ReduceToCpp(k, elts)
  }

  function ReducedCpp(k: ReductionKind, lhs: CExpr, rhs: CExpr): Result<CExpr>
  {
    match k
    case Sum => Ok(BinOp(Op.Add, lhs, rhs))
    case Min => Ok(Call("min", [lhs, rhs]))
    case Max => Ok(Call("max", [lhs, rhs]))
    case Unknown => Err(UnexpectedReduction)
  }

  /** The left-nested combination of the translated elements, first to last. */
  function ReduceToCpp(k: ReductionKind, elts: seq<ClastExpr>): Result<CExpr>
    requires |elts| >= 1
    decreases elts, 0
  {
    if |elts| == 1 then ExprToCpp(elts[0])
    else
      var lhs :- ReduceToCpp(k, elts[..|elts| - 1]);
      var rhs :- ExprToCpp(elts[|elts| - 1]);
      ReducedCpp(k, lhs, rhs)
  }

  function Comparison(sign: int): Op
  {
    if sign < 0 then LesserOrEqual else if sign > 0 then GreaterOrEqual else Equal
  }

  function EquationToCpp(eq: Equation): Result<CExpr>
  {
    var l :- ExprToCpp(eq.lhs);
    var r :- ExprToCpp(eq.rhs);
    Ok(BinOp(Comparison(eq.sign), l, r))
  }

  /** The left-nested && of the translated equations, first to last. */
  function Conjunction(eqs: seq<Equation>): Result<CExpr>
    requires |eqs| >= 1
  {
    if |eqs| == 1 then EquationToCpp(eqs[0])
    else
      var lhs :- Conjunction(eqs[..|eqs| - 1]);
      var rhs :- EquationToCpp(eqs[|eqs| - 1]);
      Ok(BinOp(LogicAnd, lhs, rhs))
  }

  /** The condition of a guard; a guard without equations gets the literal false. */
  function GuardCondition(eqs: seq<Equation>): Result<CExpr>
  {
    if |eqs| == 0 then Ok(BoolLit(false)) else Conjunction(eqs)
  }

  // ---------------------------------------------------------------------------
  // Properties of the expression translation.
  // ---------------------------------------------------------------------------

  lemma {:induction false} ReduceErrorPersists(k: ReductionKind, elts: seq<ClastExpr>, j: nat)
    requires 1 <= j <= |elts| && ReduceToCpp(k, elts[..j]).Err?
    ensures ReduceToCpp(k, elts) == ReduceToCpp(k, elts[..j])
    decreases |elts|
  {
    if j < |elts| {
      var n := |elts|;
      assert elts[..n - 1][..j] == elts[..j];
      ReduceErrorPersists(k, elts[..n - 1], j);
    } else {
      assert elts[..j] == elts;
    }
  }

  lemma {:induction false} ConjunctionErrorPersists(eqs: seq<Equation>, j: nat)
    requires 1 <= j <= |eqs| && Conjunction(eqs[..j]).Err?
    ensures Conjunction(eqs) == Conjunction(eqs[..j])
    decreases |eqs|
  {
    if j < |eqs| {
      var n := |eqs|;
      assert eqs[..n - 1][..j] == eqs[..j];
      ConjunctionErrorPersists(eqs[..n - 1], j);
    } else {
      assert eqs[..j] == eqs;
    }
  }

  /** The translation fails exactly on floor and ceiling division. */
  lemma {:induction false} ExprToCppOkIff(e: ClastExpr)
    ensures ExprToCpp(e).Ok? <==> Translatable(e)
    decreases e, 1
  {
    match e
    case Name(_) =>
    case Term(_, f) => if f.Some? { ExprToCppOkIff(f.value); }
    case Binary(_, l, _) => ExprToCppOkIff(l);
    case Reduction(k, elts) => if |elts| >= 1 { ReduceToCppOkIff(k, elts); }
  }

  lemma {:induction false} ReduceToCppOkIff(k: ReductionKind, elts: seq<ClastExpr>)
    requires |elts| >= 1
    ensures ReduceToCpp(k, elts).Ok?
            <==> (!k.Unknown? || |elts| < 2) && forall i :: 0 <= i < |elts| ==> Translatable(elts[i])
    decreases elts, 0
  {
    var n := |elts|;
    ExprToCppOkIff(elts[n - 1]);
    if n == 1 {
    } else {
      var init := elts[..n - 1];
      ReduceToCppOkIff(k, init);
      assert forall i :: 0 <= i < n - 1 ==> init[i] == elts[i];
    }
  }

  /** Where the CLAST expression has a value and contains no modulo, the generated C++
      expression computes that value. */
  lemma {:induction false} ExprToCppValue(e: ClastExpr, env: map<string, int>)
    requires ModFree(e) && ExprToCpp(e).Ok? && ClastValue(e, env).Some?
    ensures EvalInt(ExprToCpp(e).value, env) == ClastValue(e, env)
    decreases e, 1
  {
    match e
    case Name(_) =>
    case Term(_, f) => if f.Some? { ExprToCppValue(f.value, env); }
    case Binary(k, l, b) =>
      ExprToCppValue(l, env);
      var a := ClastValue(l, env).value;
      assert k.ExactDiv? && b > 0 && a % b == 0;
      assert a == (a / b) * b;
      TruncDivExact(a / b, b);
    case Reduction(k, elts) => if |elts| >= 1 { ReduceToCppValue(k, elts, env); }
  }

  lemma {:induction false} ReduceToCppValue(k: ReductionKind, elts: seq<ClastExpr>, env: map<string, int>)
    requires |elts| >= 1 && (forall i :: 0 <= i < |elts| ==> ModFree(elts[i]))
    requires ReduceToCpp(k, elts).Ok? && ReductionValue(k, elts, env).Some?
    ensures EvalInt(ReduceToCpp(k, elts).value, env) == ReductionValue(k, elts, env)
    decreases elts, 0
  {
    var n := |elts|;
    if n == 1 {
      ExprToCppValue(elts[0], env);
    } else {
      var init, last := elts[..n - 1], elts[n - 1];
      assert forall i :: 0 <= i < n - 1 ==> init[i] == elts[i];
      var lhs, rhs := ReduceToCpp(k, init), ExprToCpp(last);
      assert lhs.Ok? && rhs.Ok? && ReduceToCpp(k, elts) == ReducedCpp(k, lhs.value, rhs.value);
      var x, y := ReductionValue(k, init, env), ClastValue(last, env);
      assert x.Some? && y.Some? && ReductionValue(k, elts, env) == Reduced(k, x.value, y.value);
      ReduceToCppValue(k, init, env);
      ExprToCppValue(last, env);
      ReducedCppValue(k, lhs.value, rhs.value, env);
    }
  }

  /** One combination step of a reduction computes the sum, minimum or maximum. */
  lemma ReducedCppValue(k: ReductionKind, lhs: CExpr, rhs: CExpr, env: map<string, int>)
    requires ReducedCpp(k, lhs, rhs).Ok? && EvalInt(lhs, env).Some? && EvalInt(rhs, env).Some?
    ensures EvalInt(ReducedCpp(k, lhs, rhs).value, env) == Reduced(k, EvalInt(lhs, env).value, EvalInt(rhs, env).value)
  {
    EvalSumMinMax(lhs, rhs, env);
  }

  /** For a non-negative dividend the emitted remainder is CLooG's modulo. */
  lemma ModuloAgreesOnNonNegative(l: ClastExpr, b: int, env: map<string, int>)
    requires ModFree(l) && ExprToCpp(l).Ok? && b > 0
    requires ClastValue(l, env).Some? && ClastValue(l, env).value >= 0
    ensures EvalInt(ExprToCpp(Binary(Mod, l, b)).value, env) == ClastValue(Binary(Mod, l, b), env)
  {
    ExprToCppValue(l, env);
  }

  /** For a negative dividend that the divisor does not divide, the emitted remainder
      is negative where CLooG's modulo is not. */
  lemma ModuloDiffersOnNegative(l: ClastExpr, b: int, env: map<string, int>)
    requires ModFree(l) && ExprToCpp(l).Ok? && b > 0
    requires ClastValue(l, env).Some? && ClastValue(l, env).value < 0
    requires ClastValue(l, env).value % b != 0
    ensures var a := ClastValue(l, env).value;
            && EvalInt(ExprToCpp(Binary(Mod, l, b)).value, env) == Some(TruncRem(a, b))
            && TruncRem(a, b) < 0
            && ClastValue(Binary(Mod, l, b), env) == Some(a % b) && a % b > 0
  {
    ExprToCppValue(l, env);
    var a := ClastValue(l, env).value;
    assert (-a) % b != 0 by {
      if (-a) % b == 0 {
        assert -a == ((-a) / b) * b;
        assert a == (-((-a) / b)) * b;
        DivModOfMulAdd(-((-a) / b), b, 0);
      }
    }
  }

  lemma EquationToCppValue(eq: Equation, env: map<string, int>)
    requires ModFree(eq.lhs) && ModFree(eq.rhs)
    requires EquationToCpp(eq).Ok? && EquationTruth(eq, env).Some?
    ensures EvalBool(EquationToCpp(eq).value, env) == EquationTruth(eq, env)
  {
    ExprToCppValue(eq.lhs, env);
    ExprToCppValue(eq.rhs, env);
  }

  ghost predicate Checkable(eqs: seq<Equation>, env: map<string, int>)
  {
    forall i :: 0 <= i < |eqs| ==>
      ModFree(eqs[i].lhs) && ModFree(eqs[i].rhs) && EquationTruth(eqs[i], env).Some?
  }

  lemma {:induction false} ConjunctionValue(eqs: seq<Equation>, env: map<string, int>)
    requires |eqs| >= 1 && Conjunction(eqs).Ok? && Checkable(eqs, env)
    ensures EvalBool(Conjunction(eqs).value, env)
            == Some(forall i :: 0 <= i < |eqs| ==> EquationTruth(eqs[i], env) == Some(true))
  {
    var n := |eqs|;
    EquationToCppValue(eqs[n - 1], env);
    if n > 1 {
      var init := eqs[..n - 1];
      assert forall i :: 0 <= i < n - 1 ==> init[i] == eqs[i];
      ConjunctionValue(init, env);
      assert (forall i :: 0 <= i < n ==> EquationTruth(eqs[i], env) == Some(true))
             == ((forall i :: 0 <= i < n - 1 ==> EquationTruth(init[i], env) == Some(true))
                 && EquationTruth(eqs[n - 1], env) == Some(true));
    }
  }

  /** A guard's condition holds exactly when the guard has equations and all of them
      hold; without equations it is false. */
  lemma GuardConditionValue(eqs: seq<Equation>, env: map<string, int>)
    requires GuardCondition(eqs).Ok? && Checkable(eqs, env)
    ensures EvalBool(GuardCondition(eqs).value, env)
            == Some(|eqs| > 0 && forall i :: 0 <= i < |eqs| ==> EquationTruth(eqs[i], env) == Some(true))
  {
    if |eqs| > 0 {
      ConjunctionValue(eqs, env);
    }
  }

  // ---------------------------------------------------------------------------
  // The translator: statements, driven by the builder's statement-list stack.
  // ---------------------------------------------------------------------------

  /** The translator. `emitStatement`, when present, writes the code of a statement
      instance given its name and index expressions (or throws); `render` prints a C++
      expression, for the comment written when there is no such callback. */
  class CloogTranslator {
    const ctx: Builder
    const emitStatement: Option<(string, seq<CExpr>) -> Result<seq<CStmt>>>
    const render: CExpr -> string

    constructor(ctx: Builder, emitStatement: Option<(string, seq<CExpr>) -> Result<seq<CStmt>>>,
                render: CExpr -> string)
      ensures this.ctx == ctx && this.emitStatement == emitStatement && this.render == render
    {
      this.ctx := ctx;
      this.emitStatement := emitStatement;
      this.render := render;
    }

    /** The index expressions of a statement instance, one per substitution. */
    function IndexExprs(subs: seq<Substitution>): (r: Result<seq<CExpr>>)
      ensures r.Ok? ==> |r.value| == |subs|
    {
      if |subs| == 0 then Ok([])
      else
        var init :- IndexExprs(subs[..|subs| - 1]);
        var last :- ExprToCpp(subs[|subs| - 1].rhs);
        Ok(init + [last])
    }

    /** The rendered index expressions, each followed by a comma. */
    function ArgumentText(index: seq<CExpr>): (t: string)
      ensures |t| >= |index|
    {
      if |index| == 0 then ""
      else ArgumentText(index[..|index| - 1]) + render(index[|index| - 1]) + ","
    }

    /** The comment standing for a statement instance: `name(e1,e2,)`. */
    function CommentText(name: string, index: seq<CExpr>): string
    {
      name + "(" + ArgumentText(index) + ")"
    }

    function UserCode(name: string, index: seq<CExpr>): Result<CStmt>
    {
      if emitStatement.Some? then
        var code :- emitStatement.value(name, index);
        Ok(Block(code))
      else Ok(Comment(CommentText(name, index)))
    }

    function StmtToCpp(s: ClastStmt): Result<CStmt>
      decreases s, 1
    {
      match s
      case Root(rest) =>
        var body :- ListToCpp(rest);
        Ok(Block(body))
      case BlockStmt(body) =>
        var code :- ListToCpp(body);
        Ok(Block(code))
      case Assignment(x, v) =>
        var rhs :- ExprToCpp(v);
        Ok(ExprStmt(BinOp(Assign, Id(x), rhs)))
      case Guard(thenPart, eqs) =>
        var cond :- GuardCondition(eqs);
        var body :- ListToCpp(thenPart);
        Ok(If(cond, Block(body), None))
      case Loop(it, lb, ub, stride, loopBody) =>
        var lower :- ExprToCpp(lb);
        var upper :- ExprToCpp(ub);
        var body :- ListToCpp(loopBody);
        Ok(For(BinOp(Assign, VarDecl(BasicType("int"), it), lower),
               BinOp(LesserOrEqual, Id(it), upper),
               BinOp(AssignAdd, Id(it), IntLit(stride)),
               Block(body)))
      case User(name, subs) =>
        var index :- IndexExprs(subs);
        UserCode(name, index)
    }

    /** The translations of a statement list, in order; the first failure wins. */
    function ListToCpp(stmts: seq<ClastStmt>): Result<seq<CStmt>>
      decreases stmts, 0
    {
      if |stmts| == 0 then Ok([])
      else
        var init :- ListToCpp(stmts[..|stmts| - 1]);
        var last :- StmtToCpp(stmts[|stmts| - 1]);
        Ok(init + [last])
    }

    lemma {:induction false} ListErrorPersists(stmts: seq<ClastStmt>, j: nat)
      requires j <= |stmts| && ListToCpp(stmts[..j]).Err?
      ensures ListToCpp(stmts) == ListToCpp(stmts[..j])
      decreases |stmts|
    {
      if j < |stmts| {
        var n := |stmts|;
        assert stmts[..n - 1][..j] == stmts[..j];
        ListErrorPersists(stmts[..n - 1], j);
      } else {
        assert stmts[..j] == stmts;
      }
    }

    lemma {:induction false} IndexErrorPersists(subs: seq<Substitution>, j: nat)
      requires j <= |subs| && IndexExprs(subs[..j]).Err?
      ensures IndexExprs(subs) == IndexExprs(subs[..j])
      decreases |subs|
    {
      if j < |subs| {
        var n := |subs|;
        assert subs[..n - 1][..j] == subs[..j];
        IndexErrorPersists(subs[..n - 1], j);
      } else {
        assert subs[..j] == subs;
      }
    }

    /** A list translates exactly when each of its statements does, into one C++
        statement per CLAST statement, in order. */
    lemma {:induction false} ListToCppElements(stmts: seq<ClastStmt>)
      ensures ListToCpp(stmts).Ok? <==> forall i :: 0 <= i < |stmts| ==> StmtToCpp(stmts[i]).Ok?
      ensures ListToCpp(stmts).Ok? ==>
                |ListToCpp(stmts).value| == |stmts| &&
                forall i :: 0 <= i < |stmts| ==> StmtToCpp(stmts[i]) == Ok(ListToCpp(stmts).value[i])
      decreases |stmts|
    {
      if |stmts| > 0 {
        var n := |stmts|;
        var init := stmts[..n - 1];
        ListToCppElements(init);
        assert forall i :: 0 <= i < n - 1 ==> init[i] == stmts[i];
      }
    }

    /** The index handed on for a statement instance is the translation of each
        substitution's right-hand side, in order. */
    lemma {:induction false} IndexExprsElements(subs: seq<Substitution>)
      requires IndexExprs(subs).Ok?
      ensures forall i :: 0 <= i < |subs| ==> ExprToCpp(subs[i].rhs) == Ok(IndexExprs(subs).value[i])
      decreases |subs|
    {
      if |subs| > 0 {
        var n := |subs|;
        var init := subs[..n - 1];
        IndexExprsElements(init);
        assert forall i :: 0 <= i < n - 1 ==> init[i] == subs[i];
      }
    }

    /** A generated for loop declares the iterator with the lower bound's value, keeps
        running while the iterator is at most the upper bound's value, and steps the
        iterator by the stride. */
    lemma ForLoopMeaning(s: ClastStmt, env: map<string, int>, v: int)
      requires s.Loop? && StmtToCpp(s).Ok?
      requires ModFree(s.lower) && ClastValue(s.lower, env).Some?
      requires ModFree(s.upper) && ClastValue(s.upper, env[s.counter := v]).Some?
      ensures var f := StmtToCpp(s).value;
              && f.For?
              && f.init.BinOp? && f.init.op == Assign && f.init.lhs == VarDecl(BasicType("int"), s.counter)
              && EvalInt(f.init.rhs, env) == ClastValue(s.lower, env)
              && EvalBool(f.cond, env[s.counter := v])
                 == Some(v <= ClastValue(s.upper, env[s.counter := v]).value)
              && f.update == BinOp(AssignAdd, Id(s.counter), IntLit(s.stride))
    {
      ExprToCppValue(s.lower, env);
      ExprToCppValue(s.upper, env[s.counter := v]);
    }

    // -------------------------------------------------------------------------
    // The methods, proved against the functions above.
    // -------------------------------------------------------------------------

    method ProcessExpr(e: ClastExpr) returns (r: Result<CExpr>)
      ensures r == ExprToCpp(e)
      decreases e, 1
    {
      match e
      case Name(x) =>
        r := Ok(Id(x));
      case Term(c, f) =>
        r := Ok(IntLit(c));
        if f.Some? {
          var v := ProcessExpr(f.value);
          if v.Err? {
            return Err(v.msg);
          }
          r := Ok(BinOp(Mult, IntLit(c), v.value));
        }
      case Binary(k, l, b) =>
        var lhs := ProcessExpr(l);
        if lhs.Err? {
          return Err(lhs.msg);
        }
        r := BinaryToCpp(k, lhs.value, b);
      case Reduction(_, _) =>
        r := ProcessReduction(e);
    }

    /** A min, max or sum reduction: its first element, then each further element
        folded in. */
    method ProcessReduction(e: ClastExpr) returns (r: Result<CExpr>)
      requires e.Reduction?
      ensures r == ExprToCpp(e)
      decreases e, 0
    {
      var k, elts := e.rkind, e.elts;
      if |elts| < 1 {
        return Ok(IntLit(0));
      }
      r := ProcessExpr(elts[0]);
      if r.Err? {
        assert elts[..1] == [elts[0]];
        ReduceErrorPersists(k, elts, 1);
        return;
      }
      var lhs := r.value;
      var i := 1;
      assert elts[..1] == [elts[0]];
      while i < |elts|
        invariant 1 <= i <= |elts|
        invariant ReduceToCpp(k, elts[..i]) == Ok(lhs)
      {
        var rhs := ProcessExpr(elts[i]);
        assert elts[..i + 1][..i] == elts[..i];
        if rhs.Err? {
          ReduceErrorPersists(k, elts, i + 1);
          return Err(rhs.msg);
        }
        var combined := ReducedCpp(k, lhs, rhs.value);
        if combined.Err? {
          ReduceErrorPersists(k, elts, i + 1);
          return combined;
        }
        lhs := combined.value;
        i := i + 1;
      }
      assert elts[..i] == elts;
      r := Ok(lhs);
    }

    method ProcessEquation(eq: Equation) returns (r: Result<CExpr>)
      ensures r == EquationToCpp(eq)
    {
      var lhs := ProcessExpr(eq.lhs);
      if lhs.Err? {
        return Err(lhs.msg);
      }
      var rhs := ProcessExpr(eq.rhs);
      if rhs.Err? {
        return Err(rhs.msg);
      }
      var op;
      if eq.sign < 0 {
        op := LesserOrEqual;
      } else if eq.sign > 0 {
        op := GreaterOrEqual;
      } else {
        op := Equal;
      }
      r := Ok(BinOp(op, lhs.value, rhs.value));
    }

    method ProcessGuardCondition(eqs: seq<Equation>) returns (r: Result<CExpr>)
      ensures r == GuardCondition(eqs)
    {
      if |eqs| == 0 {
        return Ok(BoolLit(false));
      }
      assert eqs[..1] == [eqs[0]];
      r := ProcessEquation(eqs[0]);
      if r.Err? {
        ConjunctionErrorPersists(eqs, 1);
        return;
      }
      var cond := r.value;
      var i := 1;
      while i < |eqs|
        invariant 1 <= i <= |eqs|
        invariant Conjunction(eqs[..i]) == Ok(cond)
      {
        var rhs := ProcessEquation(eqs[i]);
        assert eqs[..i + 1][..i] == eqs[..i];
        if rhs.Err? {
          ConjunctionErrorPersists(eqs, i + 1);
          return Err(rhs.msg);
        }
        cond := BinOp(LogicAnd, cond, rhs.value);
        i := i + 1;
      }
      assert eqs[..i] == eqs;
      r := Ok(cond);
    }

    /** Translate the statement list into a fresh list pushed on the builder, and hand
        that list back once it is popped. */
    method ProcessList(stmts: seq<ClastStmt>) returns (r: Result<seq<CStmt>>)
      requires ctx.Valid()
      modifies ctx
      ensures ctx.Valid() && r == ListToCpp(stmts)
      ensures r.Ok? ==> ctx.stack == old(ctx.stack) && ctx.tempCount == old(ctx.tempCount)
      decreases stmts, 0
    {
      ctx.Push();
      var i := 0;
      assert stmts[..0] == [];
      while i < |stmts|
        invariant 0 <= i <= |stmts|
        invariant ListToCpp(stmts[..i]).Ok?
        invariant ctx.stack == old(ctx.stack) + [ListToCpp(stmts[..i]).value]
        invariant ctx.tempCount == old(ctx.tempCount)
      {
        var code := ProcessStmt(stmts[i]);
        assert stmts[..i + 1][..i] == stmts[..i];
        if code.Err? {
          ListErrorPersists(stmts, i + 1);
          return Err(code.msg);
        }
        ctx.Add(code.value);
        ExtendedTop(old(ctx.stack), ListToCpp(stmts[..i]).value, [code.value]);
        i := i + 1;
      }
      assert stmts[..i] == stmts;
      var top := ctx.Pop();
      SnocInjective(ctx.stack, top, old(ctx.stack), ListToCpp(stmts).value);
      r := Ok(top);
    }

    /** A statement instance: its index expressions, then either the callback's code,
        collected into a block pushed for it, or a comment. */
    method ProcessUser(name: string, subs: seq<Substitution>) returns (r: Result<CStmt>)
      requires ctx.Valid()
      modifies ctx
      ensures ctx.Valid() && r == StmtToCpp(User(name, subs))
      ensures r.Ok? ==> ctx.stack == old(ctx.stack) && ctx.tempCount == old(ctx.tempCount)
    {
      var index := ProcessIndexes(subs);
      if index.Err? {
        return Err(index.msg);
      }
      r := ProcessUserCode(name, index.value);
    }

    /** The right-hand sides of a statement instance's substitutions, in order. */
    method ProcessIndexes(subs: seq<Substitution>) returns (r: Result<seq<CExpr>>)
      requires ctx.Valid()
      modifies ctx
      ensures ctx.Valid() && r == IndexExprs(subs)
      ensures ctx.stack == old(ctx.stack) && ctx.tempCount == old(ctx.tempCount)
    {
      var index: seq<CExpr> := [];
      var i := 0;
      assert subs[..0] == [];
      while i < |subs|
        invariant 0 <= i <= |subs|
        invariant IndexExprs(subs[..i]) == Ok(index)
        invariant ctx.stack == old(ctx.stack) && ctx.tempCount == old(ctx.tempCount)
      {
        var e := ProcessExpr(subs[i].rhs);
        assert subs[..i + 1][..i] == subs[..i];
        if e.Err? {
          IndexErrorPersists(subs, i + 1);
          return Err(e.msg);
        }
        index := index + [e.value];
        i := i + 1;
      }
      assert subs[..i] == subs;
      r := Ok(index);
    }

    /** The code of a statement instance with the given index expressions: the
        callback's statements in a block pushed for them, or else a comment. */
    method ProcessUserCode(name: string, index: seq<CExpr>) returns (r: Result<CStmt>)
      requires ctx.Valid()
      modifies ctx
      ensures ctx.Valid() && r == UserCode(name, index)
      ensures r.Ok? ==> ctx.stack == old(ctx.stack) && ctx.tempCount == old(ctx.tempCount)
    {
      if emitStatement.Some? {
        ctx.Push();
        var code := emitStatement.value(name, index);
        if code.Err? {
          return Err(code.msg);
        }
        // The callback writes its statements into the list pushed for it.
        ctx.stack := Extended(ctx.stack, code.value);
        ExtendedTop(old(ctx.stack), [], code.value);
        assert [] + code.value == code.value;
        var block := ctx.Pop();
        SnocInjective(ctx.stack, block, old(ctx.stack), code.value);
        r := Ok(Block(block));
      } else {
        var text := RenderComment(name, index);
        r := Ok(Comment(text));
      }
    }

    /** The comment text of a statement instance: its name, then each index
        expression followed by a comma, in parentheses. */
    method RenderComment(name: string, index: seq<CExpr>) returns (text: string)
      ensures text == CommentText(name, index)
    {
      text := name + "(";
      var j := 0;
      while j < |index|
        invariant 0 <= j <= |index|
        invariant text == name + "(" + ArgumentText(index[..j])
      {
        assert index[..j + 1][..j] == index[..j];
        text := text + render(index[j]) + ",";
        j := j + 1;
      }
      assert index[..j] == index;
      text := text + ")";
    }

    method ProcessStmt(s: ClastStmt) returns (r: Result<CStmt>)
      requires ctx.Valid()
      modifies ctx
      ensures ctx.Valid() && r == StmtToCpp(s)
      ensures r.Ok? ==> ctx.stack == old(ctx.stack) && ctx.tempCount == old(ctx.tempCount)
      decreases s, 1
    {
      match s
      case Root(rest) =>
        var body := ProcessList(rest);
        if body.Err? {
          return Err(body.msg);
        }
        r := Ok(Block(body.value));
      case BlockStmt(stmts) =>
        var body := ProcessList(stmts);
        if body.Err? {
          return Err(body.msg);
        }
        r := Ok(Block(body.value));
      case Assignment(x, v) =>
        var rhs := ProcessExpr(v);
        if rhs.Err? {
          return Err(rhs.msg);
        }
        r := Ok(ExprStmt(BinOp(Assign, Id(x), rhs.value)));
      case Guard(thenPart, eqs) =>
        var cond := ProcessGuardCondition(eqs);
        if cond.Err? {
          return Err(cond.msg);
        }
        var body := ProcessList(thenPart);
        if body.Err? {
          return Err(body.msg);
        }
        r := Ok(If(cond.value, Block(body.value), None));
      case Loop(it, lb, ub, stride, loopBody) =>
        var lower := ProcessExpr(lb);
        if lower.Err? {
          return Err(lower.msg);
        }
        var upper := ProcessExpr(ub);
        if upper.Err? {
          return Err(upper.msg);
        }
        var body := ProcessList(loopBody);
        if body.Err? {
          return Err(body.msg);
        }
        r := Ok(For(BinOp(Assign, VarDecl(BasicType("int"), it), lower.value),
                    BinOp(LesserOrEqual, Id(it), upper.value),
                    BinOp(AssignAdd, Id(it), IntLit(stride)),
                    Block(body.value)));
      case User(name, subs) =>
        r := ProcessUser(name, subs);
    }

    /** Translate a whole CLAST program and append it to the builder's current list. */
    method Generate(ast: ClastStmt) returns (o: Outcome)
      requires ctx.Valid()
      modifies ctx
      ensures ctx.Valid()
      ensures StmtToCpp(ast).Err? <==> o.Fail?
      ensures o.Fail? ==> o.msg == StmtToCpp(ast).msg
      ensures o.Pass? ==> ctx.stack == Extended(old(ctx.stack), [StmtToCpp(ast).value])
    {
      var code := ProcessStmt(ast);
      if code.Err? {
        return Fail(code.msg);
      }
      ctx.Add(code.value);
      o := Pass;
    }
  }
}
