/** The C++ syntax tree both C++ generators build, the statement-list stack of the
    builder they write into, and an evaluator for the integer and boolean fragment
    (used to state what generated index and loop-bound expressions compute). */
module CppAst {
  import opened Common
  import opened PolyModel

  datatype CType = BasicType(name: string) | PrimitiveType(prim: PrimType)

  datatype Op =
    | Assign | AssignAdd
    | Add | Sub | Mult | Div | Rem
    | LogicAnd | LogicOr | LogicNeg | UMinus
    | Greater | GreaterOrEqual | Lesser | LesserOrEqual | Equal | NotEqual
    | MemberOfPointer

  datatype CExpr =
    | Id(name: string)
    | IntLit(intValue: int)
    | RealLit(realValue: RealLiteral)
    | BoolLit(boolValue: bool)
    | BinOp(op: Op, lhs: CExpr, rhs: CExpr)
    | UnOp(op: Op, operand: CExpr)
    | Cast(ty: CType, operand: CExpr)
    | ArrayAccess(obj: CExpr, index: seq<CExpr>)
    | Call(callee: string, args: seq<CExpr>)
    | VarDecl(ty: CType, name: string)

  datatype CStmt =
    | ExprStmt(expr: CExpr)
    | Block(stmts: seq<CStmt>)
    | If(cond: CExpr, thenPart: CStmt, elsePart: Option<CStmt>)
    | For(init: CExpr, cond: CExpr, update: CExpr, body: CStmt)
    | Comment(text: string)

  /** The name of the n-th temporary variable the builder declares. */
  function TempName(n: nat): string
  {
    "tmp" + NatToString(n)
  }

  lemma TempNamesDistinct(a: nat, b: nat)
    requires a != b
    ensures TempName(a) != TempName(b)
  {
    if TempName(a) == TempName(b) {
      assert NatToString(a) == TempName(a)[3..];
      assert NatToString(b) == TempName(b)[3..];
      NatToStringInjective(a, b);
    }
  }

  /** The value of an integer C++ expression under an environment of variables; None
      where the fragment does not cover the expression or C leaves it undefined. */
  function EvalInt(e: CExpr, env: map<string, int>): Option<int>
  {
    match e
    case Id(x) => if x in env then Some(env[x]) else None
    case IntLit(v) => Some(v)
    case BinOp(op, a, b) =>
      var x := EvalInt(a, env);
      var y := EvalInt(b, env);
      if x.None? || y.None? then None
      else if op.Add? then Some(x.value + y.value)
      else if op.Sub? then Some(x.value - y.value)
      else if op.Mult? then Some(x.value * y.value)
      else if op.Div? && y.value != 0 then Some(TruncDiv(x.value, y.value))
      else if op.Rem? && y.value != 0 then Some(TruncRem(x.value, y.value))
      else None
    case Call(f, args) =>
      if |args| == 2 && (f == "min" || f == "max") then
        var x := EvalInt(args[0], env);
        var y := EvalInt(args[1], env);
        if x.None? || y.None? then None
        else if f == "min" then Some(if x.value <= y.value then x.value else y.value)
        else Some(if x.value >= y.value then x.value else y.value)
      else None
    case _ => None
  }

  /** The value of a boolean C++ expression: literals, integer comparisons and &&. */
  function EvalBool(e: CExpr, env: map<string, int>): Option<bool>
  {
    match e
    case BoolLit(b) => Some(b)
    case BinOp(op, a, b) =>
      if op.LogicAnd? then
        var x := EvalBool(a, env);
        var y := EvalBool(b, env);
        if x.None? || y.None? then None else Some(x.value && y.value)
      else
        var x := EvalInt(a, env);
        var y := EvalInt(b, env);
        if x.None? || y.None? then None
        else if op.LesserOrEqual? then Some(x.value <= y.value)
        else if op.GreaterOrEqual? then Some(x.value >= y.value)
        else if op.Equal? then Some(x.value == y.value)
        else None
    case _ => None
  }

  /** Sums and two-argument min and max of expressions with values. */
  lemma EvalSumMinMax(lhs: CExpr, rhs: CExpr, env: map<string, int>)
    requires EvalInt(lhs, env).Some? && EvalInt(rhs, env).Some?
    ensures var x, y := EvalInt(lhs, env).value, EvalInt(rhs, env).value;
            && EvalInt(BinOp(Op.Add, lhs, rhs), env) == Some(x + y)
            && EvalInt(Call("min", [lhs, rhs]), env) == Some(if x <= y then x else y)
            && EvalInt(Call("max", [lhs, rhs]), env) == Some(if x >= y then x else y)
  {
  }

  /** Executing a statement of the integer fragment on an environment: an assignment
      of an integer expression to a variable, a declaration, a comment, a block and an
      if over a boolean condition; None where the fragment does not cover the
      statement or an expression in it has no value. */
  function Exec(s: CStmt, env: map<string, int>): Option<map<string, int>>
    decreases s, if s.Block? then |s.stmts| + 2 else 0
  {
    match s
    case ExprStmt(e) =>
      if e.BinOp? && e.op.Assign? && e.lhs.Id? then
        var v := EvalInt(e.rhs, env);
        if v.None? then None else Some(env[e.lhs.name := v.value])
      else if e.VarDecl? then Some(env)
      else None
    case Block(_) => ExecBlock(s, |s.stmts|, env)
    case If(c, th, el) =>
      var b := EvalBool(c, env);
      if b.None? then None
      else if b.value then Exec(th, env)
      else if el.Some? then Exec(el.value, env)
      else Some(env)
    case For(_, _, _, _) => None
    case Comment(_) => Some(env)
  }

  /** Executing the first k statements of a block, in order. */
  function ExecBlock(s: CStmt, k: nat, env: map<string, int>): Option<map<string, int>>
    requires s.Block? && k <= |s.stmts|
    decreases s, k + 1
  {
    if k == 0 then Some(env)
    else
      var m := ExecBlock(s, k - 1, env);
      if m.None? then None else Exec(s.stmts[k - 1], m.value)
  }

  /** Executing a list of statements as a block. */
  function ExecAll(ss: seq<CStmt>, env: map<string, int>): Option<map<string, int>>
  {
    Exec(Block(ss), env)
  }

  /** A block's first k statements run the same way in any block that shares them. */
  lemma {:induction false} ExecBlockPrefix(s: CStmt, u: CStmt, k: nat, env: map<string, int>)
    requires s.Block? && u.Block? && k <= |s.stmts| && k <= |u.stmts| && s.stmts[..k] == u.stmts[..k]
    ensures ExecBlock(s, k, env) == ExecBlock(u, k, env)
    decreases k
  {
    if k > 0 {
      assert s.stmts[..k - 1] == s.stmts[..k][..k - 1] && u.stmts[..k - 1] == u.stmts[..k][..k - 1];
      ExecBlockPrefix(s, u, k - 1, env);
      assert s.stmts[k - 1] == s.stmts[..k][k - 1] && u.stmts[k - 1] == u.stmts[..k][k - 1];
    }
  }

  /** Running `ss` followed by `st` runs `ss`, then `st` on the environment it left. */
  lemma ExecAllSnoc(ss: seq<CStmt>, st: CStmt, env: map<string, int>)
    ensures ExecAll(ss + [st], env) ==
            (var m := ExecAll(ss, env); if m.None? then None else Exec(st, m.value))
  {
    var b := Block(ss + [st]);
    assert (ss + [st])[..|ss|] == ss[..|ss|];
    ExecBlockPrefix(b, Block(ss), |ss|, env);
    assert b.stmts[|ss|] == st;
    assert ExecAll(ss + [st], env) == ExecBlock(b, |ss| + 1, env);
    assert ExecAll(ss, env) == ExecBlock(Block(ss), |ss|, env);
  }

  /** An assignment to a variable gives it the value of the right-hand side and leaves
      every other variable as it was. */
  lemma ExecAssignment(name: string, rhs: CExpr, env: map<string, int>)
    ensures var r := Exec(ExprStmt(BinOp(Assign, Id(name), rhs)), env);
            && (r.Some? <==> EvalInt(rhs, env).Some?)
            && (r.Some? ==>
                  && name in r.value && r.value[name] == EvalInt(rhs, env).value
                  && forall x :: x in env && x != name ==> x in r.value && r.value[x] == env[x])
  {
  }

  /** The builder's stack after `emitted` was appended to its innermost list. */
  function Extended(stack: seq<seq<CStmt>>, emitted: seq<CStmt>): (r: seq<seq<CStmt>>)
    requires |stack| > 0
    ensures |r| == |stack| && r[..|r| - 1] == stack[..|stack| - 1]
    ensures r[|r| - 1] == stack[|stack| - 1] + emitted
    ensures emitted == [] ==> r == stack
  {
    assert stack[|stack| - 1] + [] == stack[|stack| - 1];
    stack[|stack| - 1 := stack[|stack| - 1] + emitted]
  }

  lemma ExtendedAppend(stack: seq<seq<CStmt>>, a: seq<CStmt>, b: seq<CStmt>)
    requires |stack| > 0
    ensures Extended(Extended(stack, a), b) == Extended(stack, a + b)
  {
    assert stack[|stack| - 1] + a + b == stack[|stack| - 1] + (a + b);
  }

  /** Statements appended after a push land in the pushed list alone. */
  lemma ExtendedTop(base: seq<seq<CStmt>>, top: seq<CStmt>, emitted: seq<CStmt>)
    ensures Extended(base + [top], emitted) == base + [top + emitted]
  {
    var r := Extended(base + [top], emitted);
    assert r == r[..|r| - 1] + [r[|r| - 1]];
  }

  lemma SnocInjective(a: seq<seq<CStmt>>, x: seq<CStmt>, b: seq<seq<CStmt>>, y: seq<CStmt>)
    requires a + [x] == b + [y]
    ensures a == b && x == y
  {
    assert a == (a + [x])[..|a|];
    assert b == (b + [y])[..|b|];
    assert x == (a + [x])[|a|];
  }

  /** The code builder: a stack of statement lists (the innermost receives new
      statements), the parameter names of the function being generated, and the
      counter that names temporaries. */
  class Builder {
    var stack: seq<seq<CStmt>>
    var tempCount: nat
    const parameters: seq<string>

    ghost predicate Valid()
      reads this
    {
      |stack| > 0
    }

    /** The statement list new statements are appended to. */
    function Current(): seq<CStmt>
      reads this
      requires Valid()
    {
      stack[|stack| - 1]
    }

    constructor(parameters: seq<string>)
      ensures Valid() && stack == [[]] && tempCount == 0 && this.parameters == parameters
    {
      stack := [[]];
      tempCount := 0;
      this.parameters := parameters;
    }

    /** Start collecting statements into a fresh list. */
    method Push()
      requires Valid()
      modifies this
      ensures Valid() && stack == old(stack) + [[]] && tempCount == old(tempCount)
    {
      stack := stack + [[]];
    }

    /** Stop collecting into the innermost list and hand it back. */
    method Pop() returns (top: seq<CStmt>)
      requires |stack| > 1
      modifies this
      ensures Valid() && old(stack) == stack + [top] && tempCount == old(tempCount)
    {
      top := stack[|stack| - 1];
      stack := stack[..|stack| - 1];
    }

    method Add(s: CStmt)
      requires Valid()
      modifies this
      ensures Valid() && tempCount == old(tempCount)
      ensures stack == Extended(old(stack), [s])
    {
      stack := stack[|stack| - 1 := Current() + [s]];
    }

    /** Declare a fresh temporary of type t. */
    method NewVar(t: CType) returns (decl: CExpr, name: string)
      modifies this
      ensures name == TempName(old(tempCount)) && decl == VarDecl(t, name)
      ensures tempCount == old(tempCount) + 1 && stack == old(stack)
    {
      name := TempName(tempCount);
      decl := VarDecl(t, name);
      tempCount := tempCount + 1;
    }
  }
}
