/** The C++ backend's statement code generation (cpp/cpp_from_polyhedral.cpp): a
    statement instance becomes an assignment to its element of the state's buffer,
    with the statement's expression lowered to a C++ expression; a conditional also
    emits a temporary and an if statement into the builder's current list. Index
    coordinates are C++ expressions supplied by the caller (the loop code). */
module CppFromPolyhedral {
  import opened Common
  import opened PolyModel
  import opened CppAst

  const ReductionNotImplemented := "Reduction not implemented"
  const UnexpectedExpression := "Unexpected expression type."
  const NotImplemented := "C++ target: Primitive expression not implemented."
  const UnexpectedPrimitive := "Unexpected primitive op: "

  /** A lowered expression: the C++ expression, the statements emitted before it into
      the current list, and the builder's temporary counter afterwards. */
  datatype Lowered = Lowered(expr: CExpr, emitted: seq<CStmt>, nextTemp: nat)

  datatype LoweredList = LoweredList(exprs: seq<CExpr>, emitted: seq<CStmt>, nextTemp: nat)

  /** The statements one statement instance emits, and the counter afterwards. */
  datatype Emitted = Emitted(code: seq<CStmt>, nextTemp: nat)

  /** How many operands generate_primitive reads of an operation. */
  function Arity(op: PrimOp): nat
  {
    match op
    case LogicAnd => 2
    case LogicOr => 2
    case Conditional => 3
    case Negate => 1
    case Add => 2 case Subtract => 2 case Multiply => 2
    case CompareG => 2 case CompareGeq => 2 case CompareL => 2
    case CompareLeq => 2 case CompareEq => 2 case CompareNeq => 2
    case Divide => 2 case DivideInteger => 2
    case _ => 0
  }

  /** The operations the C++ backend translates. */
  predicate Translated(op: PrimOp)
  {
    Arity(op) > 0
  }

  /** The operands generate_primitive lowers: the first two of && and ||, the first
      three of a conditional, every operand of anything else. */
  function LoweredCount(op: PrimOp, n: nat): nat
  {
    if op.LogicAnd? || op.LogicOr? || op.Conditional? then Arity(op) else n
  }

  /** The expressions the C++ backend lowers without throwing. */
  predicate CppSupported(e: Expr)
  {
    match e
    case Primitive(_, op, args) =>
      Translated(op) && forall i :: 0 <= i < |args| && i < LoweredCount(op, |args|) ==> CppSupported(args[i])
    case ReductionAccess(_) => false
    case _ => true
  }

  /** An expression that emits no statements: no conditional among the operands lowered. */
  predicate Straight(e: Expr)
  {
    match e
    case Primitive(_, op, args) =>
      !op.Conditional? && forall i :: 0 <= i < |args| && i < LoweredCount(op, |args|) ==> Straight(args[i])
    case _ => true
  }

  /** The assignment `lhs = rhs` as a statement. */
  function AssignStmt(lhs: CExpr, rhs: CExpr): CStmt
  {
    ExprStmt(BinOp(Op.Assign, lhs, rhs))
  }

  /** The if statement generate_primitive emits for a conditional, as written: the else
      block ends by assigning the value of the then branch. */
  function ConditionalIfAsWritten(name: string, cond: CExpr, t: Lowered, f: Lowered): CStmt
  {
    If(cond, Block(t.emitted + [AssignStmt(Id(name), t.expr)]),
       Some(Block(f.emitted + [AssignStmt(Id(name), t.expr)])))
  }

  /** The if statement a conditional evidently intends: each block assigns its own value. */
  function ConditionalIf(name: string, cond: CExpr, t: Lowered, f: Lowered): (r: CStmt)
    ensures r.If? && r.thenPart.Block? && r.elsePart.Some? && r.elsePart.value.Block?
  {
    If(cond, Block(t.emitted + [AssignStmt(Id(name), t.expr)]),
       Some(Block(f.emitted + [AssignStmt(Id(name), f.expr)])))
  }

  /** As written, the else branch stores the then value: whenever the two values differ,
      the conditional yields the then value on both paths. */
  lemma ConditionalElseAssignsThenValue(name: string, cond: CExpr, t: Lowered, f: Lowered)
    requires t.expr != f.expr
    ensures ConditionalIfAsWritten(name, cond, t, f).elsePart.value.stmts ==
            f.emitted + [AssignStmt(Id(name), t.expr)]
    ensures ConditionalIfAsWritten(name, cond, t, f) != ConditionalIf(name, cond, t, f)
  {
    var w, c := ConditionalIfAsWritten(name, cond, t, f), ConditionalIf(name, cond, t, f);
    assert w.elsePart.value.stmts[|f.emitted|] != c.elsePart.value.stmts[|f.emitted|];
  }

  /** As written, a false condition runs the else code and then gives the temporary
      the then value, evaluated where the else code left the variables: for
      `false ? 1 : 0` the temporary ends up 1, where the corrected if gives 0. */
  lemma ConditionalAsWrittenFalsePath(name: string, cond: CExpr, t: Lowered, f: Lowered, env: map<string, int>)
    requires EvalBool(cond, env) == Some(false)
    ensures var m := ExecAll(f.emitted, env);
            var r := Exec(ConditionalIfAsWritten(name, cond, t, f), env);
            && (r.Some? <==> m.Some? && EvalInt(t.expr, m.value).Some?)
            && (r.Some? ==> name in r.value && r.value[name] == EvalInt(t.expr, m.value).value)
    ensures var one, zero := Lowered(IntLit(1), [], 0), Lowered(IntLit(0), [], 0);
            && Exec(ConditionalIfAsWritten(name, BoolLit(false), one, zero), env) == Some(env[name := 1])
            && Exec(ConditionalIf(name, BoolLit(false), one, zero), env) == Some(env[name := 0])
  {
    ExecAllSnoc(f.emitted, AssignStmt(Id(name), t.expr), env);
    var m := ExecAll(f.emitted, env);
    if m.Some? {
      ExecAssignment(name, t.expr, m.value);
    }
    var one, zero := Lowered(IntLit(1), [], 0), Lowered(IntLit(0), [], 0);
    ExecAllSnoc([], AssignStmt(Id(name), IntLit(1)), env);
    ExecAllSnoc([], AssignStmt(Id(name), IntLit(0)), env);
    assert [] + [AssignStmt(Id(name), IntLit(1))] == [AssignStmt(Id(name), IntLit(1))];
    assert [] + [AssignStmt(Id(name), IntLit(0))] == [AssignStmt(Id(name), IntLit(0))];
  }

  /** Running the corrected if statement, where its condition has a value, runs the code
      of the branch the condition selects and then leaves the temporary holding that
      branch's value; every other variable is as the branch's code left it. */
  lemma ConditionalIfValue(name: string, cond: CExpr, t: Lowered, f: Lowered, env: map<string, int>)
    requires EvalBool(cond, env).Some?
    ensures var l := if EvalBool(cond, env).value then t else f;
            var m := ExecAll(l.emitted, env);
            var r := Exec(ConditionalIf(name, cond, t, f), env);
            && (r.Some? <==> m.Some? && EvalInt(l.expr, m.value).Some?)
            && (r.Some? ==>
                  && name in r.value && r.value[name] == EvalInt(l.expr, m.value).value
                  && forall x :: x in m.value && x != name ==> x in r.value && r.value[x] == m.value[x])
  {
    var l := if EvalBool(cond, env).value then t else f;
    ExecAllSnoc(l.emitted, AssignStmt(Id(name), l.expr), env);
    var m := ExecAll(l.emitted, env);
    if m.Some? {
      ExecAssignment(name, l.expr, m.value);
    }
  }

  /** The result expression of an operation whose operands are lowered to `ops`. */
  function Combine(ty: PrimType, op: PrimOp, args: seq<Expr>, ops: seq<CExpr>): Result<CExpr>
    requires |ops| == |args| >= Arity(op)
  {
    match op
    case Negate => Ok(UnOp(if ty.Boolean? then Op.LogicNeg else Op.UMinus, ops[0]))
    case Add => Ok(BinOp(Op.Add, ops[0], ops[1]))
    case Subtract => Ok(BinOp(Op.Sub, ops[0], ops[1]))
    case Multiply => Ok(BinOp(Op.Mult, ops[0], ops[1]))
    case CompareG => Ok(BinOp(Op.Greater, ops[0], ops[1]))
    case CompareGeq => Ok(BinOp(Op.GreaterOrEqual, ops[0], ops[1]))
    case CompareL => Ok(BinOp(Op.Lesser, ops[0], ops[1]))
    case CompareLeq => Ok(BinOp(Op.LesserOrEqual, ops[0], ops[1]))
    case CompareEq => Ok(BinOp(Op.Equal, ops[0], ops[1]))
    case CompareNeq => Ok(BinOp(Op.NotEqual, ops[0], ops[1]))
    case Divide =>
      var lhs := if args[0].ty != PrimType.Real then Cast(PrimitiveType(PrimType.Real), ops[0]) else ops[0];
      Ok(BinOp(Op.Div, lhs, ops[1]))
    case DivideInteger =>
      var quotient := BinOp(Op.Div, ops[0], ops[1]);
      if args[0].ty == PrimType.Integer && args[1].ty == PrimType.Integer then Ok(quotient)
      else Ok(Cast(PrimitiveType(PrimType.Integer), quotient))
    case Modulo => Err(NotImplemented) case Raise => Err(NotImplemented)
    case Floor => Err(NotImplemented) case Ceil => Err(NotImplemented)
    case Abs => Err(NotImplemented) case Max => Err(NotImplemented) case Min => Err(NotImplemented)
    case Log => Err(NotImplemented) case Log2 => Err(NotImplemented) case Log10 => Err(NotImplemented)
    case Exp => Err(NotImplemented) case Exp2 => Err(NotImplemented) case Sqrt => Err(NotImplemented)
    case Sin => Err(NotImplemented) case Cos => Err(NotImplemented)
    case _ => Err(UnexpectedPrimitive + PrimOpName(op))
  }

  lemma CombineOkIff(ty: PrimType, op: PrimOp, args: seq<Expr>, ops: seq<CExpr>)
    requires |ops| == |args| >= Arity(op) && !op.LogicAnd? && !op.LogicOr? && !op.Conditional?
    ensures Combine(ty, op, args, ops).Ok? <==> Translated(op)
    ensures !Translated(op) && Combine(ty, op, args, ops).msg != NotImplemented ==>
              Combine(ty, op, args, ops).msg == UnexpectedPrimitive + PrimOpName(op)
  {
  }

  /** The accumulated sum mapped_index builds for output o over the first n inputs:
      zero coefficients are skipped and unit coefficients need no multiplication. */
  function MappedSum(m: Mapping, index: seq<CExpr>, o: nat, n: nat): CExpr
    requires m.Valid() && o < m.outputDim && n <= m.inputDim && n <= |index|
  {
    if n == 0 then IntLit(m.Constant(o))
    else
      var acc := MappedSum(m, index, o, n - 1);
      var c := m.Coefficient(n - 1, o);
      if c == 0 then acc
      else BinOp(Op.Add, acc, if c == 1 then index[n - 1] else BinOp(Op.Mult, index[n - 1], IntLit(c)))
  }

  function MappedIndexOf(index: seq<CExpr>, m: Mapping): (r: seq<CExpr>)
    requires m.Valid() && |index| == m.inputDim
    ensures |r| == m.outputDim
  {
    seq(m.outputDim, o requires 0 <= o < m.outputDim => MappedSum(m, index, o, m.inputDim))
  }

  /** Index expressions that evaluate to `values`. */
  ghost predicate Denotes(index: seq<CExpr>, env: map<string, int>, values: seq<int>)
  {
    |index| == |values| && forall i :: 0 <= i < |index| ==> EvalInt(index[i], env) == Some(values[i])
  }

  lemma {:induction false} MappedSumValue(m: Mapping, index: seq<CExpr>, env: map<string, int>,
                                          values: seq<int>, o: nat, n: nat)
    requires m.Valid() && o < m.outputDim && n <= m.inputDim && n <= |index|
    requires Denotes(index, env, values)
    ensures EvalInt(MappedSum(m, index, o, n), env) == Some(m.Constant(o) + AffineSum(m, values, o, n))
  {
    if n > 0 {
      MappedSumValue(m, index, env, values, o, n - 1);
      var c, v := m.Coefficient(n - 1, o), values[n - 1];
      assert EvalInt(index[n - 1], env) == Some(v);
      if c == 0 {
        assert c * v == 0;
      } else if c == 1 {
        assert c * v == v;
      } else {
        assert EvalInt(BinOp(Op.Mult, index[n - 1], IntLit(c)), env) == Some(v * c);
        assert c * v == v * c;
      }
    }
  }

  /** The index expressions mapped_index builds evaluate to the image of the access
      pattern at the values of the source index. */
  lemma MappedIndexValues(m: Mapping, index: seq<CExpr>, env: map<string, int>, values: seq<int>)
    requires m.Valid() && |index| == m.inputDim
    requires Denotes(index, env, values)
    ensures Denotes(MappedIndexOf(index, m), env, AffineImage(m, values))
  {
    forall o | 0 <= o < m.outputDim
      ensures EvalInt(MappedIndexOf(index, m)[o], env) == Some(AffineImage(m, values)[o])
    {
      MappedSumValue(m, index, env, values, o, m.inputDim);
    }
  }

  /** The expression an iterator access lowers to. */
  function IteratorExpr(v: CExpr, ratio: int, offset: int): CExpr
  {
    var scaled := if ratio != 1 then BinOp(Op.Mult, v, IntLit(ratio)) else v;
    if offset != 0 then BinOp(Op.Add, scaled, IntLit(offset)) else scaled
  }

  /** An iterator access reads ratio·i + offset. */
  lemma IteratorValue(v: CExpr, env: map<string, int>, i: int, ratio: int, offset: int)
    requires EvalInt(v, env) == Some(i)
    ensures EvalInt(IteratorExpr(v, ratio, offset), env) == Some(i * ratio + offset)
  {
    var scaled := if ratio != 1 then BinOp(Op.Mult, v, IntLit(ratio)) else v;
    assert EvalInt(scaled, env) == Some(i * ratio);
  }

  class Generator {
    const statements: seq<Statement>

    constructor(statements: seq<Statement>)
      ensures this.statements == statements
    {
      this.statements := statements;
    }

    /** What the lowering indexes or asserts without checking, for an index of n
        coordinates and a function with parameters `params`. */
    ghost predicate WellFormed(e: Expr, n: nat, params: seq<string>)
    {
      match e
      case Primitive(_, op, args) =>
        |args| >= Arity(op) && forall a :: a in args ==> WellFormed(a, n, params)
      case InputAccess(_, k) => 0 <= k < |params|
      case IteratorAccess(_, d, _, _) => 0 <= d < n
      case StmtAccess(_, t, m) => t < |statements| && m.Valid() && m.inputDim == n && |params| > 0
      case _ => true
    }

    /** generate_buffer_access: the element `state->name[index...]`, the state being the
        function's last parameter. */
    function BufferElement(p: nat, index: seq<CExpr>, params: seq<string>): CExpr
      requires p < |statements| && |params| > 0
    {
      ArrayAccess(BinOp(Op.MemberOfPointer, Id(params[|params| - 1]), Id(statements[p].name)), index)
    }

    /** What generate_expression produces for `e`, starting with temporary counter `temp`,
        or the exception it throws. */
    function Lower(e: Expr, index: seq<CExpr>, params: seq<string>, temp: nat): Result<Lowered>
      requires WellFormed(e, |index|, params)
      decreases e, 3
    {
      match e
      case Primitive(ty, op, args) => LowerPrimitive(ty, op, args, index, params, temp)
      case InputAccess(_, k) => Ok(Lowered(Id(params[k]), [], temp))
      case IteratorAccess(_, d, ratio, offset) => Ok(Lowered(IteratorExpr(index[d], ratio, offset), [], temp))
      case StmtAccess(_, t, m) => Ok(Lowered(BufferElement(t, MappedIndexOf(index, m), params), [], temp))
      case ReductionAccess(_) => Err(ReductionNotImplemented)
      case IntConst(_, v) => Ok(Lowered(IntLit(v), [], temp))
      case RealConst(_, v) => Ok(Lowered(RealLit(v), [], temp))
      case BoolConst(_, v) => Ok(Lowered(BoolLit(v), [], temp))
    }

    /** What generate_primitive produces. */
    function LowerPrimitive(ty: PrimType, op: PrimOp, args: seq<Expr>, index: seq<CExpr>,
                            params: seq<string>, temp: nat): Result<Lowered>
      requires |args| >= Arity(op) && forall a :: a in args ==> WellFormed(a, |index|, params)
      decreases args, 2
    {
      if op.LogicAnd? || op.LogicOr? then LowerLogic(op, args, index, params, temp)
      else if op.Conditional? then LowerConditional(ty, args, index, params, temp)
      else LowerOperation(ty, op, args, index, params, temp)
    }

    /** && and ||: both operands, then the operator. */
    function LowerLogic(op: PrimOp, args: seq<Expr>, index: seq<CExpr>, params: seq<string>, temp: nat): Result<Lowered>
      requires |args| >= 2 && forall a :: a in args ==> WellFormed(a, |index|, params)
      decreases args, 0
    {
      var lhs := Lower(args[0], index, params, temp);
      if lhs.Err? then lhs
      else
        var rhs := Lower(args[1], index, params, lhs.value.nextTemp);
        if rhs.Err? then rhs
        else Ok(Lowered(BinOp(if op.LogicAnd? then Op.LogicAnd else Op.LogicOr, lhs.value.expr, rhs.value.expr),
                        lhs.value.emitted + rhs.value.emitted, rhs.value.nextTemp))
    }

    /** A conditional: declare a temporary, lower the condition into the current list, each
        branch into its own block, and yield the temporary. */
    function LowerConditional(ty: PrimType, args: seq<Expr>, index: seq<CExpr>, params: seq<string>, temp: nat)
      : Result<Lowered>
      requires |args| >= 3 && forall a :: a in args ==> WellFormed(a, |index|, params)
      decreases args, 0
    {
      var name := TempName(temp);
      var c := Lower(args[0], index, params, temp + 1);
      if c.Err? then c
      else
        var t := Lower(args[1], index, params, c.value.nextTemp);
        if t.Err? then t
        else
          var f := Lower(args[2], index, params, t.value.nextTemp);
          if f.Err? then f
          else Ok(Lowered(Id(name),
                          [ExprStmt(VarDecl(PrimitiveType(ty), name))] + c.value.emitted +
                          [ConditionalIf(name, c.value.expr, t.value, f.value)],
                          f.value.nextTemp))
    }

    /** Any other operation: every operand, then the operation's expression. */
    function LowerOperation(ty: PrimType, op: PrimOp, args: seq<Expr>, index: seq<CExpr>,
                            params: seq<string>, temp: nat): Result<Lowered>
      requires |args| >= Arity(op) && forall a :: a in args ==> WellFormed(a, |index|, params)
      decreases args, 1
    {
      var operands := LowerAll(args, index, params, temp);
      if operands.Err? then Err(operands.msg)
      else
        var r := Combine(ty, op, args, operands.value.exprs);
        if r.Err? then Err(r.msg) else Ok(Lowered(r.value, operands.value.emitted, operands.value.nextTemp))
    }

    /** The operands lowered left to right, threading the temporary counter. */
    function LowerAll(args: seq<Expr>, index: seq<CExpr>, params: seq<string>, temp: nat): (r: Result<LoweredList>)
      requires forall a :: a in args ==> WellFormed(a, |index|, params)
      ensures r.Ok? ==> |r.value.exprs| == |args|
      decreases args, 0
    {
      if |args| == 0 then Ok(LoweredList([], [], temp))
      else
        var init := LowerAll(args[..|args| - 1], index, params, temp);
        if init.Err? then init
        else
          var last := Lower(args[|args| - 1], index, params, init.value.nextTemp);
          if last.Err? then Err(last.msg)
          else Ok(LoweredList(init.value.exprs + [last.value.expr], init.value.emitted + last.value.emitted,
                              last.value.nextTemp))
    }

    lemma {:induction false} LowerAllErrorPersists(args: seq<Expr>, index: seq<CExpr>, params: seq<string>,
                                                   temp: nat, j: nat, k: nat)
      requires j <= k <= |args|
      requires forall a :: a in args ==> WellFormed(a, |index|, params)
      requires LowerAll(args[..j], index, params, temp).Err?
      ensures LowerAll(args[..k], index, params, temp) == LowerAll(args[..j], index, params, temp)
      decreases k
    {
      if k > j {
        assert args[..k][..k - 1] == args[..k - 1];
        LowerAllErrorPersists(args, index, params, temp, j, k - 1);
      }
    }

    /** Lowering succeeds exactly on the supported expressions, and never moves the
        temporary counter backwards. */
    lemma {:induction false} LowerOkIff(e: Expr, index: seq<CExpr>, params: seq<string>, temp: nat)
      requires WellFormed(e, |index|, params)
      ensures Lower(e, index, params, temp).Ok? <==> CppSupported(e)
      ensures Lower(e, index, params, temp).Ok? ==> Lower(e, index, params, temp).value.nextTemp >= temp
      decreases e, 3
    {
      match e
      case Primitive(ty, op, args) =>
        LowerPrimitiveOkIff(ty, op, args, index, params, temp);
      case _ =>
    }

    lemma {:induction false} LowerPrimitiveOkIff(ty: PrimType, op: PrimOp, args: seq<Expr>, index: seq<CExpr>,
                                                 params: seq<string>, temp: nat)
      requires |args| >= Arity(op) && forall a :: a in args ==> WellFormed(a, |index|, params)
      ensures LowerPrimitive(ty, op, args, index, params, temp).Ok? <==> CppSupported(Primitive(ty, op, args))
      ensures LowerPrimitive(ty, op, args, index, params, temp).Ok? ==>
                LowerPrimitive(ty, op, args, index, params, temp).value.nextTemp >= temp
      decreases args, 2
    {
      var e := Primitive(ty, op, args);
      if op.LogicAnd? || op.LogicOr? {
        LowerOkIff(args[0], index, params, temp);
        var lhs := Lower(args[0], index, params, temp);
        if lhs.Ok? {
          LowerOkIff(args[1], index, params, lhs.value.nextTemp);
        }
        assert CppSupported(e) <==> CppSupported(args[0]) && CppSupported(args[1]);
      } else if op.Conditional? {
        LowerOkIff(args[0], index, params, temp + 1);
        var c := Lower(args[0], index, params, temp + 1);
        if c.Ok? {
          LowerOkIff(args[1], index, params, c.value.nextTemp);
          var t := Lower(args[1], index, params, c.value.nextTemp);
          if t.Ok? {
            LowerOkIff(args[2], index, params, t.value.nextTemp);
          }
        }
        assert CppSupported(e) <==> CppSupported(args[0]) && CppSupported(args[1]) && CppSupported(args[2]);
      } else {
        LowerAllOkIff(args, index, params, temp);
        var operands := LowerAll(args, index, params, temp);
        if operands.Ok? {
          CombineOkIff(ty, op, args, operands.value.exprs);
        }
      }
    }

    lemma {:induction false} LowerAllOkIff(args: seq<Expr>, index: seq<CExpr>, params: seq<string>, temp: nat)
      requires forall a :: a in args ==> WellFormed(a, |index|, params)
      ensures LowerAll(args, index, params, temp).Ok? <==> forall i :: 0 <= i < |args| ==> CppSupported(args[i])
      ensures LowerAll(args, index, params, temp).Ok? ==> LowerAll(args, index, params, temp).value.nextTemp >= temp
      decreases args, 0
    {
      if |args| > 0 {
        var init := args[..|args| - 1];
        LowerAllOkIff(init, index, params, temp);
        var r := LowerAll(init, index, params, temp);
        if r.Ok? {
          LowerOkIff(args[|args| - 1], index, params, r.value.nextTemp);
        }
        assert forall i :: 0 <= i < |init| ==> init[i] == args[i];
      }
    }

    /** An expression without conditionals emits no statements and declares no temporaries. */
    lemma {:induction false} StraightEmitsNothing(e: Expr, index: seq<CExpr>, params: seq<string>, temp: nat)
      requires WellFormed(e, |index|, params) && Straight(e)
      ensures Lower(e, index, params, temp).Ok? ==>
                Lower(e, index, params, temp).value.emitted == [] && Lower(e, index, params, temp).value.nextTemp == temp
      decreases e, 2
    {
      match e
      case Primitive(ty, op, args) =>
        assert Lower(e, index, params, temp) == LowerPrimitive(ty, op, args, index, params, temp);
        if op.LogicAnd? || op.LogicOr? {
          assert LowerPrimitive(ty, op, args, index, params, temp) == LowerLogic(op, args, index, params, temp);
          StraightEmitsNothing(args[0], index, params, temp);
          StraightEmitsNothing(args[1], index, params, temp);
        } else {
          assert LowerPrimitive(ty, op, args, index, params, temp) == LowerOperation(ty, op, args, index, params, temp);
          StraightAllEmitsNothing(args, index, params, temp);
        }
      case _ =>
    }

    lemma {:induction false} StraightAllEmitsNothing(args: seq<Expr>, index: seq<CExpr>, params: seq<string>, temp: nat)
      requires forall a :: a in args ==> WellFormed(a, |index|, params)
      requires forall i :: 0 <= i < |args| ==> Straight(args[i])
      ensures LowerAll(args, index, params, temp).Ok? ==>
                LowerAll(args, index, params, temp).value.emitted == [] &&
                LowerAll(args, index, params, temp).value.nextTemp == temp
      decreases args, 0
    {
      if |args| > 0 {
        var init := args[..|args| - 1];
        assert forall i :: 0 <= i < |init| ==> init[i] == args[i];
        StraightAllEmitsNothing(init, index, params, temp);
        StraightEmitsNothing(args[|args| - 1], index, params, temp);
      }
    }

    /** What generate_statement (by statement) emits for statement p at the period-less
        `index`: the value's statements, then the assignment to the statement's own element. */
    function StatementCode(p: nat, index: seq<CExpr>, params: seq<string>, temp: nat): Result<Emitted>
      requires p < |statements| && |params| > 0 && StatementReady(p, |index|, params)
    {
      var s := statements[p];
      var value :=
        if s.expr.None? then Err(UnexpectedExpression)
        else if s.expr.value.InputAccess? then
          Ok(Lowered(ArrayAccess(Id(params[s.expr.value.input]), index), [], temp))
        else Lower(s.expr.value, index, params, temp);
      if value.Err? then Err(value.msg)
      else Ok(Emitted(value.value.emitted + [AssignStmt(BufferElement(p, index, params), value.value.expr)],
                      value.value.nextTemp))
    }

    ghost predicate StatementReady(p: nat, n: nat, params: seq<string>)
      requires p < |statements|
    {
      var s := statements[p];
      s.expr.Some? ==>
        if s.expr.value.InputAccess? then 0 <= s.expr.value.input < |params|
        else WellFormed(s.expr.value, n, params)
    }

    /** A statement's code ends with exactly one store, into its own element at the index
        it was visited with; an input statement copies the input element at that index. */
    lemma StatementStoresOwnElement(p: nat, index: seq<CExpr>, params: seq<string>, temp: nat)
      requires p < |statements| && |params| > 0 && StatementReady(p, |index|, params)
      ensures statements[p].expr.None? ==> StatementCode(p, index, params, temp) == Err(UnexpectedExpression)
      ensures StatementCode(p, index, params, temp).Ok? ==>
                var code := StatementCode(p, index, params, temp).value.code;
                0 < |code| && code[|code| - 1].ExprStmt? &&
                code[|code| - 1].expr.op == Op.Assign && code[|code| - 1].expr.lhs == BufferElement(p, index, params)
      ensures statements[p].expr.Some? && statements[p].expr.value.InputAccess? ==>
                StatementCode(p, index, params, temp) ==
                Ok(Emitted([AssignStmt(BufferElement(p, index, params),
                                       ArrayAccess(Id(params[statements[p].expr.value.input]), index))], temp))
      ensures statements[p].expr.Some? && !statements[p].expr.value.InputAccess? ==>
                (StatementCode(p, index, params, temp).Ok? <==> CppSupported(statements[p].expr.value))
    {
      if statements[p].expr.Some? && !statements[p].expr.value.InputAccess? {
        LowerOkIff(statements[p].expr.value, index, params, temp);
      }
      var assign := AssignStmt(BufferElement(p, index, params),
                               ArrayAccess(Id(params[if statements[p].expr.Some? && statements[p].expr.value.InputAccess?
                                                     then statements[p].expr.value.input else 0]), index));
      assert [] + [assign] == [assign];
    }

    // -------------------------------------------------------------------------
    // The generator's methods.

    /** generate_expression. */
    method GenerateExpression(e: Expr, index: seq<CExpr>, ctx: Builder) returns (r: Result<CExpr>)
      requires ctx.Valid() && WellFormed(e, |index|, ctx.parameters)
      modifies ctx
      ensures ctx.Valid()
      ensures match Lower(e, index, ctx.parameters, old(ctx.tempCount))
              case Ok(l) => r == Ok(l.expr) && ctx.tempCount == l.nextTemp && ctx.stack == Extended(old(ctx.stack), l.emitted)
              case Err(msg) => r == Err(msg)
      decreases e, 3
    {
      match e {
        case Primitive(ty, op, args) =>
          r := GeneratePrimitive(ty, op, args, index, ctx);
        case InputAccess(_, k) =>
          r := Ok(Id(ctx.parameters[k]));
        case IteratorAccess(_, d, ratio, offset) =>
          var v := index[d];
          if ratio != 1 {
            v := BinOp(Op.Mult, v, IntLit(ratio));
          }
          if offset != 0 {
            v := BinOp(Op.Add, v, IntLit(offset));
          }
          r := Ok(v);
        case StmtAccess(_, t, m) =>
          var targetIndex := MappedIndex(index, m);
          var elem := GenerateBufferAccess(t, targetIndex, ctx);
          r := Ok(elem);
        case ReductionAccess(_) =>
          r := Err(ReductionNotImplemented);
        case IntConst(_, v) =>
          r := Ok(IntLit(v));
        case RealConst(_, v) =>
          r := Ok(RealLit(v));
        case BoolConst(_, v) =>
          r := Ok(BoolLit(v));
      }
    }

    /** generate_primitive. */
    method GeneratePrimitive(ty: PrimType, op: PrimOp, args: seq<Expr>, index: seq<CExpr>, ctx: Builder)
      returns (r: Result<CExpr>)
      requires ctx.Valid() && |args| >= Arity(op)
      requires forall a :: a in args ==> WellFormed(a, |index|, ctx.parameters)
      modifies ctx
      ensures ctx.Valid()
      ensures match LowerPrimitive(ty, op, args, index, ctx.parameters, old(ctx.tempCount))
              case Ok(l) => r == Ok(l.expr) && ctx.tempCount == l.nextTemp && ctx.stack == Extended(old(ctx.stack), l.emitted)
              case Err(msg) => r == Err(msg)
      decreases args, 2
    {
      if op.LogicAnd? || op.LogicOr? {
        r := GenerateLogic(op, args, index, ctx);
      } else if op.Conditional? {
        r := GenerateConditional(ty, args, index, ctx);
      } else {
        r := GenerateOperation(ty, op, args, index, ctx);
      }
    }

    /** The && and || cases of generate_primitive. */
    method GenerateLogic(op: PrimOp, args: seq<Expr>, index: seq<CExpr>, ctx: Builder) returns (r: Result<CExpr>)
      requires ctx.Valid() && |args| >= 2
      requires forall a :: a in args ==> WellFormed(a, |index|, ctx.parameters)
      modifies ctx
      ensures ctx.Valid()
      ensures match LowerLogic(op, args, index, ctx.parameters, old(ctx.tempCount))
              case Ok(l) => r == Ok(l.expr) && ctx.tempCount == l.nextTemp && ctx.stack == Extended(old(ctx.stack), l.emitted)
              case Err(msg) => r == Err(msg)
      decreases args, 0
    {
      var lhs := GenerateExpression(args[0], index, ctx);
      if lhs.Err? {
        return Err(lhs.msg);
      }
      ghost var l := Lower(args[0], index, ctx.parameters, old(ctx.tempCount)).value;
      var rhs := GenerateExpression(args[1], index, ctx);
      if rhs.Err? {
        return Err(rhs.msg);
      }
      ExtendedAppend(old(ctx.stack), l.emitted, Lower(args[1], index, ctx.parameters, l.nextTemp).value.emitted);
      r := Ok(BinOp(if op.LogicAnd? then Op.LogicAnd else Op.LogicOr, lhs.value, rhs.value));
    }

    /** The remaining cases of generate_primitive: lower every operand, then combine. */
    method GenerateOperation(ty: PrimType, op: PrimOp, args: seq<Expr>, index: seq<CExpr>, ctx: Builder)
      returns (r: Result<CExpr>)
      requires ctx.Valid() && |args| >= Arity(op)
      requires forall a :: a in args ==> WellFormed(a, |index|, ctx.parameters)
      modifies ctx
      ensures ctx.Valid()
      ensures match LowerOperation(ty, op, args, index, ctx.parameters, old(ctx.tempCount))
              case Ok(l) => r == Ok(l.expr) && ctx.tempCount == l.nextTemp && ctx.stack == Extended(old(ctx.stack), l.emitted)
              case Err(msg) => r == Err(msg)
      decreases args, 1
    {
      var operands := GenerateOperands(args, index, ctx);
      if operands.Err? {
        return Err(operands.msg);
      }
      r := Combine(ty, op, args, operands.value);
    }

    /** The operand loop of generate_primitive: every operand lowered, left to right. */
    method GenerateOperands(args: seq<Expr>, index: seq<CExpr>, ctx: Builder) returns (r: Result<seq<CExpr>>)
      requires ctx.Valid()
      requires forall a :: a in args ==> WellFormed(a, |index|, ctx.parameters)
      modifies ctx
      ensures ctx.Valid()
      ensures match LowerAll(args, index, ctx.parameters, old(ctx.tempCount))
              case Ok(l) => r == Ok(l.exprs) && ctx.tempCount == l.nextTemp && ctx.stack == Extended(old(ctx.stack), l.emitted)
              case Err(msg) => r == Err(msg)
      decreases args, 0
    {
      var operands: seq<CExpr> := [];
      ghost var emitted: seq<CStmt> := [];
      ghost var stack0 := ctx.stack;
      ghost var temp0 := ctx.tempCount;
      var i := 0;
      while i < |args|
        invariant 0 <= i <= |args| && ctx.Valid()
        invariant LowerAll(args[..i], index, ctx.parameters, temp0) == Ok(LoweredList(operands, emitted, ctx.tempCount))
        invariant ctx.stack == Extended(stack0, emitted)
      {
        ghost var tempBefore := ctx.tempCount;
        var v := GenerateExpression(args[i], index, ctx);
        assert args[..i + 1][..i] == args[..i];
        if v.Err? {
          LowerAllErrorPersists(args, index, ctx.parameters, temp0, i + 1, |args|);
          assert args[..|args|] == args;
          return Err(v.msg);
        }
        operands := operands + [v.value];
        ExtendedAppend(stack0, emitted, Lower(args[i], index, ctx.parameters, tempBefore).value.emitted);
        emitted := emitted + Lower(args[i], index, ctx.parameters, tempBefore).value.emitted;
        i := i + 1;
      }
      assert args[..i] == args;
      r := Ok(operands);
    }

    /** The conditional case of generate_primitive, with the else block assigning the
        else value. */
    method GenerateConditional(ty: PrimType, args: seq<Expr>, index: seq<CExpr>, ctx: Builder)
      returns (r: Result<CExpr>)
      requires ctx.Valid() && |args| >= 3
      requires forall a :: a in args ==> WellFormed(a, |index|, ctx.parameters)
      modifies ctx
      ensures ctx.Valid()
      ensures match LowerConditional(ty, args, index, ctx.parameters, old(ctx.tempCount))
              case Ok(l) => r == Ok(l.expr) && ctx.tempCount == l.nextTemp && ctx.stack == Extended(old(ctx.stack), l.emitted)
              case Err(msg) => r == Err(msg)
      decreases args, 1
    {
      ghost var temp0 := ctx.tempCount;
      ghost var stack0 := ctx.stack;
      ghost var params := ctx.parameters;
      var decl, id := ctx.NewVar(PrimitiveType(ty));
      ctx.Add(ExprStmt(decl));
      var idExpr := Id(id);
      ghost var declCode := [ExprStmt(VarDecl(PrimitiveType(ty), TempName(temp0)))];
      var cond := GenerateExpression(args[0], index, ctx);
      if cond.Err? {
        return Err(cond.msg);
      }
      ghost var c := Lower(args[0], index, params, temp0 + 1).value;
      ExtendedAppend(stack0, declCode, c.emitted);
      var branches := GenerateIf(args, id, cond.value, index, ctx);
      if branches.Fail? {
        return Err(branches.msg);
      }
      ghost var t := Lower(args[1], index, params, c.nextTemp).value;
      ghost var f := Lower(args[2], index, params, t.nextTemp).value;
      ExtendedAppend(stack0, declCode + c.emitted, [ConditionalIf(id, c.expr, t, f)]);
      r := Ok(idExpr);
    }

    /** The two branches of a conditional and the if statement that holds them. */
    method GenerateIf(args: seq<Expr>, name: string, cond: CExpr, index: seq<CExpr>, ctx: Builder)
      returns (outcome: Outcome)
      requires ctx.Valid() && |args| >= 3
      requires forall a :: a in args ==> WellFormed(a, |index|, ctx.parameters)
      modifies ctx
      ensures ctx.Valid()
      ensures match Lower(args[1], index, ctx.parameters, old(ctx.tempCount))
              case Err(msg) => outcome == Fail(msg)
              case Ok(t) =>
                match Lower(args[2], index, ctx.parameters, t.nextTemp)
                case Err(msg) => outcome == Fail(msg)
                case Ok(f) =>
                  outcome == Pass && ctx.tempCount == f.nextTemp &&
                  ctx.stack == Extended(old(ctx.stack), [ConditionalIf(name, cond, t, f)])
      decreases args, 0
    {
      var trueBlock := GenerateBranch(args[1], Id(name), index, ctx);
      if trueBlock.Err? {
        return Fail(trueBlock.msg);
      }
      var falseBlock := GenerateBranch(args[2], Id(name), index, ctx);
      if falseBlock.Err? {
        return Fail(falseBlock.msg);
      }
      ctx.Add(If(cond, Block(trueBlock.value), Some(Block(falseBlock.value))));
      outcome := Pass;
    }

    /** One branch of a conditional: lower the operand into a block of its own, ending with
        the assignment of its value to the temporary; the builder's stack is left as it was. */
    method GenerateBranch(arg: Expr, target: CExpr, index: seq<CExpr>, ctx: Builder) returns (r: Result<seq<CStmt>>)
      requires ctx.Valid() && WellFormed(arg, |index|, ctx.parameters)
      modifies ctx
      ensures ctx.Valid()
      ensures match Lower(arg, index, ctx.parameters, old(ctx.tempCount))
              case Ok(l) => r == Ok(l.emitted + [AssignStmt(target, l.expr)]) &&
                            ctx.tempCount == l.nextTemp && ctx.stack == old(ctx.stack)
              case Err(msg) => r == Err(msg)
      decreases arg, 4
    {
      ghost var stack1 := ctx.stack;
      ctx.Push();
      var value := GenerateExpression(arg, index, ctx);
      if value.Err? {
        return Err(value.msg);
      }
      ghost var l := Lower(arg, index, ctx.parameters, old(ctx.tempCount)).value;
      ExtendedTop(stack1, [], l.emitted);
      assert [] + l.emitted == l.emitted;
      ctx.Add(AssignStmt(target, value.value));
      ExtendedTop(stack1, l.emitted, [AssignStmt(target, l.expr)]);
      var block := ctx.Pop();
      SnocInjective(stack1, l.emitted + [AssignStmt(target, l.expr)], ctx.stack, block);
      r := Ok(block);
    }

    /** generate_input_access: `input[index...]`, the input named by its parameter. */
    method GenerateInputAccess(p: nat, index: seq<CExpr>, ctx: Builder) returns (r: CExpr)
      requires p < |statements| && statements[p].expr.Some? && statements[p].expr.value.InputAccess?
      requires 0 <= statements[p].expr.value.input < |ctx.parameters|
      ensures r == ArrayAccess(Id(ctx.parameters[statements[p].expr.value.input]), index)
    {
      var inputNum := statements[p].expr.value.input;
      var inputName := ctx.parameters[inputNum];
      r := ArrayAccess(Id(inputName), index);
    }

    /** generate_buffer_access. */
    method GenerateBufferAccess(p: nat, index: seq<CExpr>, ctx: Builder) returns (r: CExpr)
      requires p < |statements| && |ctx.parameters| > 0
      ensures r == BufferElement(p, index, ctx.parameters)
    {
      var stateArg := Id(ctx.parameters[|ctx.parameters| - 1]);
      var bufferMember := Id(statements[p].name);
      var buffer := BinOp(Op.MemberOfPointer, stateArg, bufferMember);
      r := ArrayAccess(buffer, index);
    }

    /** mapped_index. */
    static method MappedIndex(index: seq<CExpr>, m: Mapping) returns (target: seq<CExpr>)
      requires m.Valid() && |index| == m.inputDim
      ensures target == MappedIndexOf(index, m)
    {
      target := [];
      var o := 0;
      while o < m.outputDim
        invariant 0 <= o <= m.outputDim && |target| == o
        invariant forall k :: 0 <= k < o ==> target[k] == MappedSum(m, index, k, m.inputDim)
      {
        var value := IntLit(m.Constant(o));
        var i := 0;
        while i < m.inputDim
          invariant 0 <= i <= m.inputDim
          invariant value == MappedSum(m, index, o, i)
        {
          var coefficient := m.Coefficient(i, o);
          if coefficient != 0 {
            var term := index[i];
            if coefficient != 1 {
              term := BinOp(Op.Mult, term, IntLit(coefficient));
            }
            value := BinOp(Op.Add, value, term);
          }
          i := i + 1;
        }
        target := target + [value];
        o := o + 1;
      }
    }

    /** generate_statement (by statement): drop the period coordinate, lower the value,
        and append `element = value` to the builder's current list. */
    method GenerateStatement(p: nat, ctxIndex: seq<CExpr>, ctx: Builder) returns (outcome: Outcome)
      requires p < |statements| && 0 < |ctxIndex| && ctx.Valid() && |ctx.parameters| > 0
      requires StatementReady(p, |ctxIndex| - 1, ctx.parameters)
      modifies ctx
      ensures ctx.Valid()
      ensures match StatementCode(p, ctxIndex[1..], ctx.parameters, old(ctx.tempCount))
              case Ok(c) => outcome == Pass && ctx.tempCount == c.nextTemp && ctx.stack == Extended(old(ctx.stack), c.code)
              case Err(msg) => outcome == Fail(msg)
    {
      var index := ctxIndex[1..];
      var stmt := statements[p];
      var value: CExpr;
      ghost var temp0 := ctx.tempCount;
      ghost var stack0 := ctx.stack;
      ghost var valueCode: seq<CStmt> := [];
      if stmt.expr.Some? && stmt.expr.value.InputAccess? {
        value := GenerateInputAccess(p, index, ctx);
      } else if stmt.expr.None? {
        return Fail(UnexpectedExpression);
      } else {
        var v := GenerateExpression(stmt.expr.value, index, ctx);
        if v.Err? {
          return Fail(v.msg);
        }
        value := v.value;
        valueCode := Lower(stmt.expr.value, index, ctx.parameters, temp0).value.emitted;
      }
      var dst := GenerateBufferAccess(p, index, ctx);
      ctx.Add(AssignStmt(dst, value));
      ExtendedAppend(stack0, valueCode, [AssignStmt(dst, value)]);
      assert [] + [AssignStmt(dst, value)] == [AssignStmt(dst, value)];
      outcome := Pass;
    }

    /** generate_statement (by name): the first statement so named. */
    method GenerateNamedStatement(name: string, ctxIndex: seq<CExpr>, ctx: Builder) returns (outcome: Outcome)
      requires exists i :: 0 <= i < |statements| && statements[i].name == name
      requires 0 < |ctxIndex| && ctx.Valid() && |ctx.parameters| > 0
      requires forall i ::
                 (0 <= i < |statements| && statements[i].name == name &&
                  (forall j :: 0 <= j < i ==> statements[j].name != name)) ==>
                 StatementReady(i, |ctxIndex| - 1, ctx.parameters)
      modifies ctx
      ensures ctx.Valid()
      ensures exists p :: 0 <= p < |statements| && statements[p].name == name &&
                (forall j :: 0 <= j < p ==> statements[j].name != name) &&
                match StatementCode(p, ctxIndex[1..], ctx.parameters, old(ctx.tempCount))
                case Ok(c) => outcome == Pass && ctx.tempCount == c.nextTemp && ctx.stack == Extended(old(ctx.stack), c.code)
                case Err(msg) => outcome == Fail(msg)
    {
      var p := FindStatement(statements, name);
      outcome := GenerateStatement(p, ctxIndex, ctx);
    }
  }
}
