/** Generation of the functional model from the parsed program: every binding becomes
    an identifier whose expression is built by walking its syntax tree under a scoped
    name environment. Names resolve innermost scope first; references count their
    targets and mark recursion; array definitions get index variables `i0`, `i1`, ...;
    applications of built-in function names become primitive operations. */
module FunctionalGen {
  import opened Common
  import opened PolyModel

  // ---------------------------------------------------------------------------
  // The parsed program.
  // ---------------------------------------------------------------------------

  datatype ConstValue =
    | BoolValue(b: bool)
    | IntValue(i: int)
    | RealValue(text: string)
    | ComplexValue(re: string, im: string)
    | OtherConstant

  /** A named definition: `name = body` or, with parameters, `name(params) = body`. */
  datatype Binding = Binding(name: string, params: Option<seq<string>>, body: Ast)

  datatype DomainCase = DomainCase(domain: Ast, value: Ast)

  /** The optional range list of an array definition. */
  datatype Ranges = NoRanges | RangeList(items: seq<Ast>)

  /** The optional domain list of a pattern. */
  datatype Domains = NoDomains | DomainList(cases: seq<DomainCase>)

  /** One piece of an array definition: index pattern, optional domains, body. */
  datatype Pattern = Pattern(indexes: seq<Ast>, domains: Domains, body: Ast)

  datatype Ast =
    | Program(bindings: Option<seq<Binding>>)
    | BindingExpr(binding: Binding)
    | LocalScope(locals: seq<Binding>, result: Ast)
    | Lambda(lambdaParams: seq<string>, lambdaBody: Ast)
    | Constant(value: ConstValue)
    | InfinityNode
    | Identifier(id: string)
    | QualifiedId(moduleName: string, member: string)
    | ArraySelfRef
    | PrimitiveApp(op: PrimOp, operands: seq<Ast>)
    | ArrayDef(ranges: Ranges, patterns: seq<Pattern>)
    | ArrayEnum(enumerated: seq<Ast>)
    | ArrayConcat(concatenated: seq<Ast>)
    | ArrayApply(applied: Ast, arrayArgs: seq<Ast>)
    | ArraySize(sized: Ast, dim: Option<Ast>)
    | FuncApply(callee: Ast, callArgs: seq<Ast>)
    | Unsupported

  /** A module: its name, its import aliases (alias to module name) and its program. */
  datatype Module = Module(name: string, imports: map<string, string>, ast: Ast)

  // ---------------------------------------------------------------------------
  // The functional model. Variables, arrays and scopes are shared objects; they
  // live in the generator's tables and the model refers to them by position.
  // ---------------------------------------------------------------------------

  datatype PatternIndex = IndexVar(variable: nat) | IndexValue(intValue: int)

  datatype FCase = FCase(domain: FExpr, value: FExpr)

  datatype FPattern = FPattern(indexes: seq<PatternIndex>, domains: Option<FExpr>, body: FExpr)

  datatype FExpr =
    | Ref(target: nat, isRecursion: bool)
    | BoolConstant(b: bool)
    | IntConstant(i: int)
    | RealConstant(text: string)
    | ComplexConstant(re: string, im: string)
    | Infinity
    | ArraySelfRefExpr(selfArray: nat)
    | PrimitiveExpr(op: PrimOp, operands: seq<FExpr>)
    | FunctionExpr(params: seq<nat>, scope: nat, body: FExpr)
    | ArrayExpr(arrayId: nat)
    | ArrayPatterns(patterns: seq<FPattern>)
    | Enumerate(enumerated: seq<FExpr>)
    | Concatenate(concatenated: seq<FExpr>)
    | ArrayApp(applied: FExpr, arrayArgs: seq<FExpr>)
    | ArraySizeExpr(sized: FExpr, dim: Option<FExpr>)
    | FuncApp(callee: FExpr, callArgs: seq<FExpr>)
    | CaseExpr(cases: seq<FCase>)

  datatype VarKind = IdentifierVar | FuncVar | ArrayVar

  /** A variable: an identifier (named by its qualified name), a function parameter
      or an array index variable; with its reference count, recursion flag, the range
      of an index variable and the expression of an identifier. */
  datatype Var = Var(kind: VarKind, name: string, qualifiedName: string, refCount: nat,
                     isRecursive: bool, range: Option<FExpr>, expr: Option<FExpr>)

  /** An array's own index variable: its name and its range. */
  datatype ArrayVarInfo = ArrayVarInfo(name: string, range: FExpr)

  datatype ArrayInfo = ArrayInfo(vars: seq<ArrayVarInfo>, scope: nat, isRecursive: bool,
                                 body: Option<FExpr>)

  // ---------------------------------------------------------------------------
  // Messages.
  // ---------------------------------------------------------------------------

  const InvalidRoot := "Invalid AST root."
  const InvalidConstant := "Invalid constant type."
  const UndefinedName := "Undefined name."
  const SelfRefWithoutArray := "Array self reference without array."
  const IndexCountMismatch := "Number of indexes does not match number of array dimensions."
  const InvalidIndexPattern := "Invalid array index pattern."
  const UnsupportedExpression := "Unsupported expression."
  /** The error the name environment raises when a scope binds a name twice. */
  const AlreadyBound := "Name already bound in this scope."

  // ---------------------------------------------------------------------------
  // Pure parts.
  // ---------------------------------------------------------------------------

  /** The built-in function names an application can use, with the operations they
      denote: the elementary functions, then rounding, min, complex parts and
      conversions. There is no entry for "max". */
  const PrimOps: map<string, PrimOp> := map[
    "exp" := Exp, "exp2" := Exp2, "log" := Log, "log2" := Log2, "log10" := Log10,
    "sqrt" := Sqrt, "sin" := Sin, "cos" := Cos, "tan" := Tan,
    "asin" := Asin, "acos" := Acos, "atan" := Atan,
    "ceil" := Ceil, "floor" := Floor, "abs" := Abs, "min" := Min,
    "real" := RealPart, "imag" := ImagPart,
    "real32" := ToReal32, "real64" := ToReal64,
    "complex32" := ToComplex32, "complex64" := ToComplex64]

  /** Every name-stack entry followed by a dot, outermost first. */
  function Prefixes(stack: seq<string>): string
  {
    if |stack| == 0 then "" else Prefixes(stack[..|stack| - 1]) + stack[|stack| - 1] + "."
  }

  /** Nesting a binding one level deeper puts the enclosing name and a dot before it. */
  lemma {:induction false} PrefixesNest(stack: seq<string>, outer: string)
    ensures Prefixes(stack + [outer]) == Prefixes(stack) + outer + "."
  {
    assert (stack + [outer])[..|stack|] == stack;
  }

  /** The name stack inside a module: its name on top when the module is named. */
  function ModuleNames(stack: seq<string>, named: bool, name: string): seq<string>
  {
    if named then stack + [name] else stack
  }

  lemma ModuleNamesPrefix(stack: seq<string>, named: bool, name: string)
    ensures Prefixes(ModuleNames(stack, named, name)) == Prefixes(stack) + (if named then name + "." else "")
  {
    if named {
      PrefixesNest(stack, name);
    } else {
      assert Prefixes(stack) + "" == Prefixes(stack);
    }
  }

  /** The name of the n-th implicit index variable. */
  function ImplicitVarName(n: nat): string
  {
    "i" + NatToString(n)
  }

  lemma ImplicitVarNamesDistinct(a: nat, b: nat)
    requires a != b
    ensures ImplicitVarName(a) != ImplicitVarName(b)
  {
    if ImplicitVarName(a) == ImplicitVarName(b) {
      assert NatToString(a) == ImplicitVarName(a)[1..];
      assert NatToString(b) == ImplicitVarName(b)[1..];
      NatToStringInjective(a, b);
    }
  }

  /** The index variables created for an array whose ranges are not declared. */
  function ImplicitVars(n: nat): (vs: seq<ArrayVarInfo>)
    ensures |vs| == n
    ensures forall i :: 0 <= i < n ==> vs[i] == ArrayVarInfo(ImplicitVarName(i), Infinity)
  {
    seq(n, i requires 0 <= i < n => ArrayVarInfo(ImplicitVarName(i), Infinity))
  }

  /** The forms an index of an array pattern can take: a name or an integer literal. */
  predicate IndexForm(x: Ast)
  {
    x.Identifier? || (x.Constant? && x.value.IntValue?)
  }

  /** A name becomes an index variable, an integer literal a fixed index value. */
  predicate IndexMeaning(x: Ast, index: PatternIndex)
  {
    && IndexForm(x)
    && (x.Identifier? <==> index.IndexVar?)
    && (x.Constant? ==> index == IndexValue(x.value.i))
  }

  function ConstantExpr(c: ConstValue): (r: Result<FExpr>)
    ensures r.Err? <==> c.OtherConstant?
  {
    match c
    case BoolValue(b) => Ok(BoolConstant(b))
    case IntValue(i) => Ok(IntConstant(i))
    case RealValue(t) => Ok(RealConstant(t))
    case ComplexValue(re, im) => Ok(ComplexConstant(re, im))
    case OtherConstant => Err(InvalidConstant)
  }

  /** `r` is a translation of the syntax tree `e`: every node kind gives its own kind
      of expression, and each child of the node is translated by the corresponding
      child of the expression. An application whose callee is a built-in function
      name is that primitive operation over the arguments, and its callee is not
      translated at all. What a name refers to, and the contents of an array
      definition, live in the generator's tables and are stated by the members that
      build them. Program roots and unsupported nodes have no translation. */
  ghost predicate Translates(e: Ast, r: FExpr)
    decreases e
  {
    match e
    case Program(_) => false
    case Unsupported => false
    case BindingExpr(_) => r.Ref? && !r.isRecursion
    case LocalScope(_, result) => Translates(result, r)
    case Lambda(ps, body) => r.FunctionExpr? && |r.params| == |ps| && Translates(body, r.body)
    case Constant(c) => ConstantExpr(c) == Ok(r)
    case InfinityNode => r == Infinity
    case Identifier(_) => r.Ref?
    case QualifiedId(_, _) => r.Ref? && !r.isRecursion
    case ArraySelfRef => r.ArraySelfRefExpr?
    case PrimitiveApp(op, xs) =>
      && r.PrimitiveExpr? && r.op == op && |r.operands| == |xs|
      && forall i :: 0 <= i < |xs| ==> Translates(xs[i], r.operands[i])
    case ArrayDef(_, _) => r.ArrayExpr?
    case ArrayEnum(xs) =>
      && r.Enumerate? && |r.enumerated| == |xs|
      && forall i :: 0 <= i < |xs| ==> Translates(xs[i], r.enumerated[i])
    case ArrayConcat(xs) =>
      && r.Concatenate? && |r.concatenated| == |xs|
      && forall i :: 0 <= i < |xs| ==> Translates(xs[i], r.concatenated[i])
    case ArrayApply(f, xs) =>
      && r.ArrayApp? && Translates(f, r.applied) && |r.arrayArgs| == |xs|
      && forall i :: 0 <= i < |xs| ==> Translates(xs[i], r.arrayArgs[i])
    case ArraySize(s, d) =>
      && r.ArraySizeExpr? && Translates(s, r.sized) && (r.dim.Some? <==> d.Some?)
      && (d.Some? ==> Translates(d.value, r.dim.value))
    case FuncApply(f, xs) =>
      if f.Identifier? && f.id in PrimOps then
        && r.PrimitiveExpr? && r.op == PrimOps[f.id] && |r.operands| == |xs|
        && forall i :: 0 <= i < |xs| ==> Translates(xs[i], r.operands[i])
      else
        && r.FuncApp? && Translates(f, r.callee) && |r.callArgs| == |xs|
        && forall i :: 0 <= i < |xs| ==> Translates(xs[i], r.callArgs[i])
  }

  /** A list of syntax trees translated element by element, in order. */
  ghost predicate TranslatesAll(es: seq<Ast>, rs: seq<FExpr>)
  {
    |rs| == |es| && forall i :: 0 <= i < |es| ==> Translates(es[i], rs[i])
  }

  /** The expression of a binding: a binding with parameters defines the function of
      those parameters, any other binding the translation of its body. */
  ghost predicate BindingTranslates(b: Binding, x: FExpr)
  {
    if b.params.Some? then Translates(Lambda(b.params.value, b.body), x) else Translates(b.body, x)
  }

  /** The domains of a pattern, as a case expression of (domain, value) pairs in order. */
  ghost predicate DomainsTranslate(cs: seq<DomainCase>, r: FExpr)
  {
    && r.CaseExpr? && |r.cases| == |cs|
    && forall i :: 0 <= i < |cs| ==>
         Translates(cs[i].domain, r.cases[i].domain) && Translates(cs[i].value, r.cases[i].value)
  }

  /** An array pattern: its indexes with their meanings, its domains when it has any,
      and its body. */
  ghost predicate PatternTranslates(p: Pattern, fp: FPattern)
  {
    && |fp.indexes| == |p.indexes|
    && (forall i :: 0 <= i < |p.indexes| ==> IndexMeaning(p.indexes[i], fp.indexes[i]))
    && (fp.domains.Some? <==> p.domains.DomainList?)
    && (p.domains.DomainList? ==> DomainsTranslate(p.domains.cases, fp.domains.value))
    && Translates(p.body, fp.body)
  }

  /** Some identifier among `ids` from position `from` on is the binding `b`: it is
      named `prefix` followed by the binding's name and holds the binding's expression. */
  ghost predicate Declares(vs: seq<Var>, ids: seq<nat>, from: nat, prefix: string, b: Binding)
  {
    exists k :: from <= k < |ids| && ids[k] < |vs|
      && vs[ids[k]].kind == IdentifierVar && vs[ids[k]].name == prefix + b.name
      && vs[ids[k]].expr.Some? && BindingTranslates(b, vs[ids[k]].expr.value)
  }

  /** A declaration stays in place while identifiers are appended and variables grow. */
  lemma DeclaresKept(v0: seq<Var>, ids0: seq<nat>, v1: seq<Var>, ids1: seq<nat>, from: nat,
                     prefix: string, b: Binding)
    requires Declares(v0, ids0, from, prefix, b) && VarsGrow(v0, v1) && ids0 <= ids1
    ensures Declares(v1, ids1, from, prefix, b)
  {
    var k :| from <= k < |ids0| && ids0[k] < |v0|
      && v0[ids0[k]].kind == IdentifierVar && v0[ids0[k]].name == prefix + b.name
      && v0[ids0[k]].expr.Some? && BindingTranslates(b, v0[ids0[k]].expr.value);
    assert ids1[k] == ids0[k];
  }

  /** The first `n` bindings of `bs` stay declared while identifiers are appended and
      variables grow. */
  lemma {:induction false} AllDeclaresKept(v0: seq<Var>, ids0: seq<nat>, v1: seq<Var>, ids1: seq<nat>,
                                           from: nat, prefix: string, bs: seq<Binding>, n: nat)
    requires n <= |bs| && VarsGrow(v0, v1) && ids0 <= ids1
    requires forall j :: 0 <= j < n ==> Declares(v0, ids0, from, prefix, bs[j])
    ensures forall j :: 0 <= j < n ==> Declares(v1, ids1, from, prefix, bs[j])
  {
    forall j | 0 <= j < n
      ensures Declares(v1, ids1, from, prefix, bs[j])
    {
      DeclaresKept(v0, ids0, v1, ids1, from, prefix, bs[j]);
    }
  }

  /** Generating the binding `bs[n]` appends its identifier `id` to the scope `ids0`:
      the first `n + 1` bindings are then declared there. */
  lemma DeclaresAppended(v0: seq<Var>, ids0: seq<nat>, v1: seq<Var>, ids1: seq<nat>,
                         from: nat, prefix: string, bs: seq<Binding>, n: nat, id: nat)
    requires n < |bs| && VarsGrow(v0, v1) && ids0 + [id] <= ids1 && from <= |ids0|
    requires forall j :: 0 <= j < n ==> Declares(v0, ids0, from, prefix, bs[j])
    requires id < |v1| && v1[id].kind == IdentifierVar && v1[id].name == prefix + bs[n].name
    requires v1[id].expr.Some? && BindingTranslates(bs[n], v1[id].expr.value)
    ensures forall j :: 0 <= j < n + 1 ==> Declares(v1, ids1, from, prefix, bs[j])
  {
    assert ids0 <= ids1;
    AllDeclaresKept(v0, ids0, v1, ids1, from, prefix, bs, n);
    assert ids1[|ids0|] == id;
  }

  /** The variable a name denotes in a stack of scopes: the innermost binding. */
  function Lookup(context: seq<map<string, nat>>, name: string): Option<nat>
  {
    if |context| == 0 then None
    else if name in context[|context| - 1] then Some(context[|context| - 1][name])
    else Lookup(context[..|context| - 1], name)
  }

  /** A name is found exactly when some scope binds it, and then it denotes the
      binding of the innermost scope that binds it. */
  lemma {:induction false} LookupSpec(context: seq<map<string, nat>>, name: string)
    ensures Lookup(context, name).None? <==> forall l :: 0 <= l < |context| ==> name !in context[l]
    ensures Lookup(context, name).Some? ==>
              exists l :: 0 <= l < |context| && name in context[l]
                          && context[l][name] == Lookup(context, name).value
                          && forall k :: l < k < |context| ==> name !in context[k]
    decreases |context|
  {
    if |context| > 0 {
      var n := |context|;
      var init := context[..n - 1];
      LookupSpec(init, name);
      assert forall l :: 0 <= l < n - 1 ==> init[l] == context[l];
      if name !in context[n - 1] && Lookup(init, name).Some? {
        var l :| 0 <= l < n - 1 && name in init[l] && init[l][name] == Lookup(init, name).value
                 && forall k :: l < k < n - 1 ==> name !in init[k];
        assert forall k :: l < k < n ==> name !in context[k];
      }
    }
  }

  /** The name environment after binding `name` to `v` in its innermost scope. */
  function Bound(context: seq<map<string, nat>>, name: string, v: nat): seq<map<string, nat>>
    requires |context| > 0
  {
    var top: map<string, nat> := context[|context| - 1][name := v];
    context[|context| - 1 := top]
  }

  /** No name occurs twice. */
  predicate Distinct(names: seq<string>)
  {
    forall a, b :: 0 <= a < b < |names| ==> names[a] != names[b]
  }

  /** The variables of the name indexes among xs, in order. */
  function IndexVarIds(xs: seq<PatternIndex>): seq<nat>
  {
    if xs == [] then []
    else (if xs[0].IndexVar? then [xs[0].variable] else []) + IndexVarIds(xs[1..])
  }

  /** The names of those variables, in the same order. */
  function IndexVarNames(vs: seq<Var>, xs: seq<PatternIndex>): seq<string>
    requires forall i :: 0 <= i < |xs| && xs[i].IndexVar? ==> xs[i].variable < |vs|
  {
    if xs == [] then []
    else (if xs[0].IndexVar? then [vs[xs[0].variable].name] else []) + IndexVarNames(vs, xs[1..])
  }

  /** The k-th index variable name is the name of the k-th index variable. */
  lemma {:induction false} IndexVarsPaired(vs: seq<Var>, xs: seq<PatternIndex>)
    requires forall i :: 0 <= i < |xs| && xs[i].IndexVar? ==> xs[i].variable < |vs|
    ensures var ids, names := IndexVarIds(xs), IndexVarNames(vs, xs);
            && |names| == |ids|
            && forall k :: 0 <= k < |ids| ==> ids[k] < |vs| && names[k] == vs[ids[k]].name
    decreases |xs|
  {
    if xs != [] {
      assert forall i :: 0 <= i < |xs[1..]| ==> xs[1..][i] == xs[i + 1];
      IndexVarsPaired(vs, xs[1..]);
    }
  }

  /** Every name index of xs is listed among the index variables. */
  lemma {:induction false} IndexVarListed(xs: seq<PatternIndex>, i: nat) returns (k: nat)
    requires i < |xs| && xs[i].IndexVar?
    ensures k < |IndexVarIds(xs)| && IndexVarIds(xs)[k] == xs[i].variable
    decreases |xs|
  {
    var head: seq<nat> := if xs[0].IndexVar? then [xs[0].variable] else [];
    assert IndexVarIds(xs) == head + IndexVarIds(xs[1..]);
    if i == 0 {
      k := 0;
    } else {
      var k' := IndexVarListed(xs[1..], i - 1);
      k := |head| + k';
    }
  }

  /** Every listed index variable comes from a name index of xs. */
  lemma {:induction false} IndexVarSource(xs: seq<PatternIndex>, k: nat) returns (i: nat)
    requires k < |IndexVarIds(xs)|
    ensures i < |xs| && xs[i].IndexVar? && xs[i].variable == IndexVarIds(xs)[k]
    decreases |xs|
  {
    var head: seq<nat> := if xs[0].IndexVar? then [xs[0].variable] else [];
    assert IndexVarIds(xs) == head + IndexVarIds(xs[1..]);
    if k < |head| {
      i := 0;
    } else {
      var i' := IndexVarSource(xs[1..], k - |head|);
      i := i' + 1;
    }
  }

  /** The name a qualified reference is looked up under: the module part is first
      resolved through the current module's import aliases. */
  function QualifiedKey(imports: map<string, string>, moduleName: string, member: string): string
  {
    (if moduleName in imports then imports[moduleName] else moduleName) + "." + member
  }

  /** Variable table growth: variables are only added, and a variable keeps its kind,
      its name and, once it has one, its expression. */
  ghost predicate VarsGrow(v0: seq<Var>, v1: seq<Var>)
  {
    && |v1| >= |v0|
    && forall i :: 0 <= i < |v0| ==>
         && v1[i].kind == v0[i].kind && v1[i].name == v0[i].name
         && (v0[i].expr.Some? ==> v1[i].expr == v0[i].expr)
  }

  /** Table growth during generation: entries are only added, variables grow as above,
      and a functional scope only ever has identifiers appended to it. */
  ghost predicate Grows(v0: seq<Var>, a0: nat, s0: seq<seq<nat>>, v1: seq<Var>, a1: nat, s1: seq<seq<nat>>)
  {
    && VarsGrow(v0, v1) && a1 >= a0 && |s1| >= |s0|
    && forall s :: 0 <= s < |s0| ==> s0[s] <= s1[s]
  }

  /** Each index variable of a pattern is a variable created from position `from` on,
      an array variable named by the identifier it stands for. */
  ghost predicate IndexVarsFresh(vs: seq<Var>, from: nat, indexes: seq<Ast>, xs: seq<PatternIndex>)
  {
    forall i :: 0 <= i < |indexes| && i < |xs| && xs[i].IndexVar? ==>
      && from <= xs[i].variable < |vs| && vs[xs[i].variable].kind == ArrayVar
      && indexes[i].Identifier? && vs[xs[i].variable].name == indexes[i].id
  }

  lemma IndexVarsFreshGrows(v0: seq<Var>, v1: seq<Var>, from: nat, indexes: seq<Ast>, xs: seq<PatternIndex>)
    requires IndexVarsFresh(v0, from, indexes, xs) && VarsGrow(v0, v1)
    ensures IndexVarsFresh(v1, from, indexes, xs)
  {
  }

  /** Defining a variable that had no definition at the start keeps the growth. */
  lemma GrowsDefined(v0: seq<Var>, a0: nat, s0: seq<seq<nat>>, v1: seq<Var>, a1: nat, s1: seq<seq<nat>>,
                     id: nat, x: FExpr)
    requires Grows(v0, a0, s0, v1, a1, s1) && id < |v0| && v0[id].expr.None?
    ensures Grows(v0, a0, s0, v1[id := v1[id].(expr := Some(x))], a1, s1)
  {
  }

  /** Every array of a0 but `except` keeps its index variables in a1. */
  ghost predicate VarsKept(a0: seq<ArrayInfo>, a1: seq<ArrayInfo>, except: int)
  {
    |a1| >= |a0| && forall k :: 0 <= k < |a0| && k != except ==> a1[k].vars == a0[k].vars
  }

  // ---------------------------------------------------------------------------
  // The generator.
  // ---------------------------------------------------------------------------

  class Generator {
    var nameStack: seq<string>
    var bindingStack: seq<nat>
    var arrayStack: seq<nat>
    var scopeStack: seq<nat>
    var context: seq<map<string, nat>>
    var imports: map<string, string>
    var vars: seq<Var>
    var arrays: seq<ArrayInfo>
    var scopes: seq<seq<nat>>
    var finalIds: map<string, nat>

    ghost predicate Valid()
      reads this
    {
      && |context| > 0
      && (forall l, n :: 0 <= l < |context| && n in context[l] ==> context[l][n] < |vars|)
      && (forall i :: 0 <= i < |bindingStack| ==> bindingStack[i] < |vars|)
      && (forall i :: 0 <= i < |arrayStack| ==> arrayStack[i] < |arrays|)
      && (forall i :: 0 <= i < |scopeStack| ==> scopeStack[i] < |scopes|)
      && (forall s, i :: 0 <= s < |scopes| && 0 <= i < |scopes[s]| ==>
            scopes[s][i] < |vars| && vars[scopes[s][i]].kind == IdentifierVar)
      && (forall n :: n in finalIds ==> finalIds[n] < |vars|)
    }

    /** The stacks and the name environment are as given. */
    ghost predicate Unwound(ns: seq<string>, bs: seq<nat>, as_: seq<nat>, ss: seq<nat>,
                            ctx: seq<map<string, nat>>)
      reads this
    {
      nameStack == ns && bindingStack == bs && arrayStack == as_ && scopeStack == ss && context == ctx
    }

    constructor()
      ensures Valid() && context == [map[]] && nameStack == [] && bindingStack == []
      ensures arrayStack == [] && scopeStack == [] && vars == [] && arrays == [] && scopes == []
      ensures finalIds == map[] && imports == map[]
    {
      nameStack, bindingStack, arrayStack, scopeStack := [], [], [], [];
      context := [map[]];
      imports := map[];
      vars, arrays, scopes := [], [], [];
      finalIds := map[];
    }

    /** `qualified_name`: the name with every name-stack entry and a dot before it. */
    method QualifiedName(name: string) returns (q: string)
      ensures q == Prefixes(nameStack) + name
    {
      var prefix := "";
      var i := 0;
      while i < |nameStack|
        invariant 0 <= i <= |nameStack|
        invariant prefix == Prefixes(nameStack[..i])
      {
        assert nameStack[..i + 1][..i] == nameStack[..i];
        prefix := prefix + nameStack[i] + ".";
        i := i + 1;
      }
      assert nameStack[..i] == nameStack;
      q := prefix + name;
    }

    /** Bind a name in the innermost scope; binding it there twice is an error. */
    method Bind(name: string, v: nat) returns (o: Outcome)
      requires Valid() && v < |vars|
      modifies this
      ensures Valid()
      ensures o.Fail? <==> name in old(context)[|old(context)| - 1]
      ensures o.Fail? ==> o.msg == AlreadyBound && context == old(context)
      ensures o.Pass? ==> context == Bound(old(context), name, v)
      ensures nameStack == old(nameStack) && bindingStack == old(bindingStack)
      ensures arrayStack == old(arrayStack) && scopeStack == old(scopeStack)
      ensures vars == old(vars) && arrays == old(arrays) && scopes == old(scopes)
      ensures finalIds == old(finalIds) && imports == old(imports)
    {
      var top := |context| - 1;
      if name in context[top] {
        return Fail(AlreadyBound);
      }
      context := Bound(context, name, v);
      o := Pass;
    }

    /** Bind names to variables in the innermost scope, in order. This fails exactly
        when a name repeats or is bound in that scope already. */
    method BindAll(names: seq<string>, ids: seq<nat>) returns (o: Outcome)
      requires Valid() && |names| == |ids| && forall i :: 0 <= i < |ids| ==> ids[i] < |vars|
      modifies this
      ensures Valid() && vars == old(vars) && arrays == old(arrays) && scopes == old(scopes)
      ensures finalIds == old(finalIds) && imports == old(imports)
      ensures nameStack == old(nameStack) && bindingStack == old(bindingStack)
      ensures arrayStack == old(arrayStack) && scopeStack == old(scopeStack)
      ensures |context| == |old(context)| && context[..|context| - 1] == old(context)[..|context| - 1]
      ensures o.Fail? ==> o.msg == AlreadyBound
      ensures o.Pass? <==> Distinct(names) && forall i :: 0 <= i < |names| ==> names[i] !in old(context)[|context| - 1]
      ensures o.Pass? ==> forall i :: 0 <= i < |names| ==>
                names[i] in context[|context| - 1] && context[|context| - 1][names[i]] == ids[i]
    {
      var top := |context| - 1;
      ghost var initial := context[top];
      var k := 0;
      while k < |names|
        invariant 0 <= k <= |names|
        invariant Valid() && vars == old(vars) && arrays == old(arrays) && scopes == old(scopes)
        invariant finalIds == old(finalIds) && imports == old(imports)
        invariant nameStack == old(nameStack) && bindingStack == old(bindingStack)
        invariant arrayStack == old(arrayStack) && scopeStack == old(scopeStack)
        invariant |context| == |old(context)| && context[..top] == old(context)[..top]
        invariant Distinct(names[..k]) && forall i :: 0 <= i < k ==> names[i] !in initial
        invariant context[top].Keys == initial.Keys + (set i | 0 <= i < k :: names[i])
        invariant forall i :: 0 <= i < k ==> context[top][names[i]] == ids[i]
      {
        var bound := Bind(names[k], ids[k]);
        if bound.Fail? {
          if names[k] !in initial {
            var i :| 0 <= i < k && names[i] == names[k];
          }
          return bound;
        }
        assert names[..k + 1] == names[..k] + [names[k]];
        k := k + 1;
      }
      assert names[..k] == names;
      o := Pass;
    }

    /** Add a variable to the table. */
    method NewVar(v: Var) returns (id: nat)
      requires Valid()
      modifies this
      ensures Valid() && id == old(|vars|) && vars == old(vars) + [v]
      ensures Grows(old(vars), |arrays|, scopes, vars, |arrays|, scopes)
      ensures Unwound(old(nameStack), old(bindingStack), old(arrayStack), old(scopeStack), old(context))
      ensures arrays == old(arrays) && scopes == old(scopes) && finalIds == old(finalIds) && imports == old(imports)
    {
      id := |vars|;
      vars := vars + [v];
    }

    /** A reference to a name: undefined names are an error; otherwise the target's
        reference count goes up, and a reference to a binding being generated marks
        both the binding and the reference as recursive. */
    method DoIdentifier(name: string) returns (r: Result<FExpr>)
      requires Valid()
      modifies this
      ensures Valid() && Unwound(old(nameStack), old(bindingStack), old(arrayStack), old(scopeStack), old(context))
      ensures arrays == old(arrays) && scopes == old(scopes) && finalIds == old(finalIds) && imports == old(imports)
      ensures r.Err? <==> Lookup(context, name).None?
      ensures r.Err? ==> r.msg == UndefinedName && vars == old(vars)
      ensures r.Ok? ==>
                var v := Lookup(context, name).value;
                && v < |vars| == |old(vars)|
                && r.value == Ref(v, v in bindingStack)
                && vars == old(vars)[v := old(vars)[v].(refCount := old(vars)[v].refCount + 1,
                                                      isRecursive := old(vars)[v].isRecursive || v in bindingStack)]
    {
      var item := Lookup(context, name);
      if item.None? {
        return Err(UndefinedName);
      }
      var v := item.value;
      LookupSpec(context, name);
      var recursion := v in bindingStack;
      vars := vars[v := vars[v].(refCount := vars[v].refCount + 1,
                                  isRecursive := vars[v].isRecursive || recursion)];
      r := Ok(Ref(v, recursion));
    }

    /** `module.name`: looked up among the identifiers of the modules generated so far. */
    method DoQualifiedId(moduleName: string, member: string) returns (r: Result<FExpr>)
      requires Valid()
      modifies this
      ensures Valid() && Unwound(old(nameStack), old(bindingStack), old(arrayStack), old(scopeStack), old(context))
      ensures arrays == old(arrays) && scopes == old(scopes) && finalIds == old(finalIds) && imports == old(imports)
      ensures r.Err? <==> QualifiedKey(imports, moduleName, member) !in finalIds
      ensures r.Err? ==> r.msg == UndefinedName && vars == old(vars)
      ensures r.Ok? ==>
                var v := finalIds[QualifiedKey(imports, moduleName, member)];
                && r.value == Ref(v, false)
                && vars == old(vars)[v := old(vars)[v].(refCount := old(vars)[v].refCount + 1)]
    {
      var resolved := moduleName;
      if moduleName in imports {
        resolved := imports[moduleName];
      }
      var qname := resolved + "." + member;
      if qname !in finalIds {
        return Err(UndefinedName);
      }
      var v := finalIds[qname];
      vars := vars[v := vars[v].(refCount := vars[v].refCount + 1)];
      r := Ok(Ref(v, false));
    }

    /** A self reference inside an array definition marks the innermost array. */
    method DoArraySelfRef() returns (r: Result<FExpr>)
      requires Valid()
      modifies this
      ensures Valid() && Unwound(old(nameStack), old(bindingStack), old(arrayStack), old(scopeStack), old(context))
      ensures vars == old(vars) && scopes == old(scopes) && finalIds == old(finalIds) && imports == old(imports)
      ensures r.Err? <==> |arrayStack| == 0
      ensures r.Err? ==> r.msg == SelfRefWithoutArray && arrays == old(arrays)
      ensures r.Ok? ==>
                var a := arrayStack[|arrayStack| - 1];
                r.value == ArraySelfRefExpr(a) && arrays == old(arrays)[a := old(arrays)[a].(isRecursive := true)]
    {
      if |arrayStack| == 0 {
        return Err(SelfRefWithoutArray);
      }
      var a := arrayStack[|arrayStack| - 1];
      arrays := arrays[a := arrays[a].(isRecursive := true)];
      r := Ok(ArraySelfRefExpr(a));
    }

    /** Generate the expression of a syntax tree. */
    method DoExpr(e: Ast) returns (r: Result<FExpr>)
      requires Valid() && |scopeStack| > 0
      modifies this
      ensures Valid() && Grows(old(vars), old(|arrays|), old(scopes), vars, |arrays|, scopes)
      ensures finalIds == old(finalIds) && imports == old(imports)
      ensures VarsKept(old(arrays), arrays, -1)
      ensures r.Ok? ==> Unwound(old(nameStack), old(bindingStack), old(arrayStack), old(scopeStack), old(context))
      ensures (e.Program? || e.Unsupported?) ==> r == Err(UnsupportedExpression)
      ensures e.Constant? ==> r == ConstantExpr(e.value)
      ensures e.InfinityNode? ==> r == Ok(Infinity)
      ensures r.Ok? ==> Translates(e, r.value)
      decreases e, 10
    {
      if e.ArraySelfRef? || e.ArrayDef? || e.ArrayEnum? || e.ArrayConcat? || e.ArrayApply? || e.ArraySize? {
        r := DoArrayExpr(e);
        return;
      }
      if e.BindingExpr? || e.LocalScope? || e.Lambda? {
        r := DoScopedExpr(e);
        return;
      }
      match e {
        case Constant(c) =>
          r := ConstantExpr(c);
        case InfinityNode =>
          r := Ok(Infinity);
        case Identifier(name) =>
          r := DoIdentifier(name);
        case QualifiedId(m, name) =>
          r := DoQualifiedId(m, name);
        case PrimitiveApp(op, operands) =>
          r := DoPrimitive(e);
        case FuncApply(_, _) =>
          r := DoFuncApply(e);
        case Program(_) =>
          r := Err(UnsupportedExpression);
        case Unsupported =>
          r := Err(UnsupportedExpression);
      }
    }

    /** The expressions that open a scope of their own: binding expressions, local
        scopes and lambdas. */
    method DoScopedExpr(e: Ast) returns (r: Result<FExpr>)
      requires e.BindingExpr? || e.LocalScope? || e.Lambda?
      requires Valid() && |scopeStack| > 0
      modifies this
      ensures Valid() && Grows(old(vars), old(|arrays|), old(scopes), vars, |arrays|, scopes)
      ensures finalIds == old(finalIds) && imports == old(imports)
      ensures VarsKept(old(arrays), arrays, -1)
      ensures r.Ok? ==> Unwound(old(nameStack), old(bindingStack), old(arrayStack), old(scopeStack), old(context))
      ensures r.Ok? ==> Translates(e, r.value)
      decreases e, 9
    {
      match e {
        case BindingExpr(b) =>
          r := DoBindingExpr(b);
        case LocalScope(_, _) =>
          r := DoLocalScope(e);
        case Lambda(params, body) =>
          r := MakeFunc(params, body);
      }
    }

    /** The array expressions: the self reference, definitions, enumerations,
        concatenations, applications and size queries. */
    method DoArrayExpr(e: Ast) returns (r: Result<FExpr>)
      requires e.ArraySelfRef? || e.ArrayDef? || e.ArrayEnum? || e.ArrayConcat? || e.ArrayApply? || e.ArraySize?
      requires Valid() && |scopeStack| > 0
      modifies this
      ensures Valid() && Grows(old(vars), old(|arrays|), old(scopes), vars, |arrays|, scopes)
      ensures finalIds == old(finalIds) && imports == old(imports)
      ensures VarsKept(old(arrays), arrays, -1)
      ensures r.Ok? ==> Unwound(old(nameStack), old(bindingStack), old(arrayStack), old(scopeStack), old(context))
      ensures r.Ok? ==> Translates(e, r.value)
      decreases e, 9
    {
      match e {
        case ArraySelfRef =>
          r := DoArraySelfRef();
        case ArrayDef(_, _) =>
          r := DoArrayDef(e);
        case ArrayEnum(elems) =>
          var operands := DoExprList(elems);
          if operands.Err? {
            return Err(operands.msg);
          }
          r := Ok(Enumerate(operands.value));
        case ArrayConcat(elems) =>
          var operands := DoExprList(elems);
          if operands.Err? {
            return Err(operands.msg);
          }
          r := Ok(Concatenate(operands.value));
        case ArrayApply(_, _) =>
          r := DoArrayApply(e);
        case ArraySize(_, _) =>
          r := DoArraySize(e);
      }
    }

    /** The expressions of a list of syntax trees, in order. */
    method DoExprList(es: seq<Ast>) returns (r: Result<seq<FExpr>>)
      requires Valid() && |scopeStack| > 0
      modifies this
      ensures Valid() && Grows(old(vars), old(|arrays|), old(scopes), vars, |arrays|, scopes)
      ensures finalIds == old(finalIds) && imports == old(imports)
      ensures VarsKept(old(arrays), arrays, -1)
      ensures r.Ok? ==> Unwound(old(nameStack), old(bindingStack), old(arrayStack), old(scopeStack), old(context))
      ensures r.Ok? ==> TranslatesAll(es, r.value)
      decreases es, 5
    {
      var out: seq<FExpr> := [];
      var i := 0;
      while i < |es|
        invariant 0 <= i <= |es| && TranslatesAll(es[..i], out)
        invariant Valid() && Grows(old(vars), old(|arrays|), old(scopes), vars, |arrays|, scopes)
        invariant finalIds == old(finalIds) && imports == old(imports)
        invariant VarsKept(old(arrays), arrays, -1)
        invariant Unwound(old(nameStack), old(bindingStack), old(arrayStack), old(scopeStack), old(context))
      {
        var x := DoExpr(es[i]);
        if x.Err? {
          return Err(x.msg);
        }
        assert es[..i + 1] == es[..i] + [es[i]];
        out := out + [x.value];
        i := i + 1;
      }
      assert es[..i] == es;
      r := Ok(out);
    }

    /** A binding used as an expression: bound in a scope of its own, and referred to. */
    method DoBindingExpr(b: Binding) returns (r: Result<FExpr>)
      requires Valid() && |scopeStack| > 0
      modifies this
      ensures Valid() && Grows(old(vars), old(|arrays|), old(scopes), vars, |arrays|, scopes)
      ensures finalIds == old(finalIds) && imports == old(imports)
      ensures VarsKept(old(arrays), arrays, -1)
      ensures r.Ok? ==> Unwound(old(nameStack), old(bindingStack), old(arrayStack), old(scopeStack), old(context))
      ensures r.Ok? ==>
                && r.value == Ref(old(|vars|), false) && old(|vars|) < |vars|
                && vars[old(|vars|)].expr.Some? && BindingTranslates(b, vars[old(|vars|)].expr.value)
      decreases b, 13
    {
      var saved := context;
      context := context + [map[]];
      var id := DoBinding(b);
      if id.Err? {
        return Err(id.msg);
      }
      context := saved;
      r := Ok(Ref(id.value, false));
    }

    /** A sequence of bindings, in order, in the innermost name scope: each one's
        identifier lands in the innermost functional scope. */
    method DoBindings(bs: seq<Binding>) returns (o: Outcome)
      requires Valid() && |scopeStack| > 0
      modifies this
      ensures Valid() && Grows(old(vars), old(|arrays|), old(scopes), vars, |arrays|, scopes)
      ensures finalIds == old(finalIds) && imports == old(imports)
      ensures VarsKept(old(arrays), arrays, -1)
      ensures o.Pass? ==>
                && nameStack == old(nameStack) && bindingStack == old(bindingStack)
                && arrayStack == old(arrayStack) && scopeStack == old(scopeStack)
                && |context| == |old(context)| && context[..|context| - 1] == old(context)[..|context| - 1]
      ensures o.Pass? ==>
                var top := old(scopeStack)[|old(scopeStack)| - 1];
                forall i :: 0 <= i < |bs| ==>
                  Declares(vars, scopes[top], |old(scopes)[top]|, Prefixes(old(nameStack)), bs[i])
      decreases bs, 13
    {
      var top := scopeStack[|scopeStack| - 1];
      var i := 0;
      while i < |bs|
        invariant 0 <= i <= |bs|
        invariant Valid() && Grows(old(vars), old(|arrays|), old(scopes), vars, |arrays|, scopes)
        invariant finalIds == old(finalIds) && imports == old(imports)
        invariant VarsKept(old(arrays), arrays, -1)
        invariant nameStack == old(nameStack) && bindingStack == old(bindingStack)
        invariant arrayStack == old(arrayStack) && scopeStack == old(scopeStack)
        invariant |context| == |old(context)| && context[..|context| - 1] == old(context)[..|context| - 1]
        invariant forall j :: 0 <= j < i ==>
                    Declares(vars, scopes[top], |old(scopes)[top]|, Prefixes(old(nameStack)), bs[j])
      {
        ghost var v0, ids0 := vars, scopes[top];
        var id := DoBinding(bs[i]);
        if id.Err? {
          return Fail(id.msg);
        }
        DeclaresAppended(v0, ids0, vars, scopes[top], |old(scopes)[top]|, Prefixes(old(nameStack)), bs, i, id.value);
        i := i + 1;
      }
      o := Pass;
    }

    /** `let bindings in result`: the bindings in a scope of their own, then the result. */
    method DoLocalScope(e: Ast) returns (r: Result<FExpr>)
      requires e.LocalScope? && Valid() && |scopeStack| > 0
      modifies this
      ensures Valid() && Grows(old(vars), old(|arrays|), old(scopes), vars, |arrays|, scopes)
      ensures finalIds == old(finalIds) && imports == old(imports)
      ensures VarsKept(old(arrays), arrays, -1)
      ensures r.Ok? ==> Unwound(old(nameStack), old(bindingStack), old(arrayStack), old(scopeStack), old(context))
      ensures r.Ok? ==> Translates(e.result, r.value)
      ensures r.Ok? ==>
                var top := old(scopeStack)[|old(scopeStack)| - 1];
                forall i :: 0 <= i < |e.locals| ==>
                  Declares(vars, scopes[top], |old(scopes)[top]|, Prefixes(old(nameStack)), e.locals[i])
      decreases e, 5
    {
      var top := scopeStack[|scopeStack| - 1];
      var saved := context;
      context := context + [map[]];
      var done := DoBindings(e.locals);
      if done.Fail? {
        return Err(done.msg);
      }
      ghost var v1, ids1 := vars, scopes[top];
      r := DoExpr(e.result);
      if r.Ok? {
        AllDeclaresKept(v1, ids1, vars, scopes[top], |old(scopes)[top]|, Prefixes(old(nameStack)),
                        e.locals, |e.locals|);
        assert context[..|saved|] == saved;
        context := saved;
      }
    }

    /** The parameter variables of a function, each knowing its qualified name. */
    method NewParams(params: seq<string>) returns (ids: seq<nat>)
      requires Valid()
      modifies this
      ensures Valid() && |ids| == |params| && |vars| == old(|vars|) + |params|
      ensures Grows(old(vars), |arrays|, scopes, vars, |arrays|, scopes)
      ensures forall i :: 0 <= i < |params| ==>
                ids[i] == old(|vars|) + i
                && vars[ids[i]] == Var(FuncVar, params[i], Prefixes(nameStack) + params[i], 0, false, None, None)
      ensures Unwound(old(nameStack), old(bindingStack), old(arrayStack), old(scopeStack), old(context))
      ensures arrays == old(arrays) && scopes == old(scopes) && finalIds == old(finalIds) && imports == old(imports)
      ensures VarsKept(old(arrays), arrays, -1)
    {
      ids := [];
      var i := 0;
      while i < |params|
        invariant 0 <= i <= |params| && |ids| == i && |vars| == old(|vars|) + i
        invariant Valid() && Grows(old(vars), |arrays|, scopes, vars, |arrays|, scopes)
        invariant Unwound(old(nameStack), old(bindingStack), old(arrayStack), old(scopeStack), old(context))
        invariant arrays == old(arrays) && scopes == old(scopes)
        invariant finalIds == old(finalIds) && imports == old(imports)
        invariant VarsKept(old(arrays), arrays, -1)
        invariant forall j :: 0 <= j < i ==>
                    ids[j] == old(|vars|) + j
                    && vars[ids[j]] == Var(FuncVar, params[j], Prefixes(nameStack) + params[j], 0, false, None, None)
      {
        var q := QualifiedName(params[i]);
        var id := NewVar(Var(FuncVar, params[i], q, 0, false, None, None));
        ids := ids + [id];
        i := i + 1;
      }
    }

    /** The parameters of a function, bound in a fresh name scope, and a fresh
        functional scope on top of the scope stack. */
    method OpenFunction(params: seq<string>) returns (ids: seq<nat>, scope: nat, o: Outcome)
      requires Valid()
      modifies this
      ensures Valid() && Grows(old(vars), |arrays|, old(scopes), vars, |arrays|, scopes)
      ensures arrays == old(arrays) && scopes == old(scopes) + [[]] && scope == old(|scopes|)
      ensures finalIds == old(finalIds) && imports == old(imports)
      ensures o.Fail? <==> !Distinct(params)
      ensures o.Fail? ==> o.msg == AlreadyBound
      ensures o.Pass? ==>
                Unwound(old(nameStack), old(bindingStack), old(arrayStack), old(scopeStack) + [scope],
                        context) && |context| == |old(context)| + 1 && context[..|old(context)|] == old(context)
      ensures |ids| == |params| && |vars| == old(|vars|) + |params|
      ensures forall i :: 0 <= i < |params| ==>
                ids[i] == old(|vars|) + i && vars[ids[i]].kind == FuncVar && vars[ids[i]].name == params[i]
    {
      ids := NewParams(params);
      scope := |scopes|;
      scopes := scopes + [[]];
      scopeStack := scopeStack + [scope];
      context := context + [map[]];
      o := BindAll(params, ids);
    }

    /** A function: its parameters bound in a scope of their own, its body generated
        with the function's scope receiving the bindings inside it. */
    method MakeFunc(params: seq<string>, body: Ast) returns (r: Result<FExpr>)
      requires Valid() && |scopeStack| > 0
      modifies this
      ensures Valid() && Grows(old(vars), old(|arrays|), old(scopes), vars, |arrays|, scopes)
      ensures finalIds == old(finalIds) && imports == old(imports)
      ensures VarsKept(old(arrays), arrays, -1)
      ensures !Distinct(params) ==> r == Err(AlreadyBound)
      ensures r.Ok? ==> Unwound(old(nameStack), old(bindingStack), old(arrayStack), old(scopeStack), old(context))
      ensures r.Ok? ==>
                && r.value.FunctionExpr? && |r.value.params| == |params|
                && r.value.scope == old(|scopes|)
                && forall i :: 0 <= i < |params| ==>
                     r.value.params[i] == old(|vars|) + i < |vars|
                     && vars[old(|vars|) + i].kind == FuncVar
                     && vars[old(|vars|) + i].name == params[i]
      ensures r.Ok? ==> Translates(body, r.value.body)
      decreases body, 11
    {
      var ids, scope, bound := OpenFunction(params);
      if bound.Fail? {
        return Err(bound.msg);
      }
      var b := DoExpr(body);
      if b.Err? {
        return Err(b.msg);
      }
      context := context[..|context| - 1];
      scopeStack := scopeStack[..|scopeStack| - 1];
      r := Ok(FunctionExpr(ids, scope, b.value));
    }

    /** The declaration half of a binding: a fresh identifier under the qualified name,
        bound in the innermost scope and stored in the innermost functional scope. */
    method DeclareBinding(name: string) returns (r: Result<nat>)
      requires Valid() && |scopeStack| > 0
      modifies this
      ensures Valid() && Grows(old(vars), |arrays|, old(scopes), vars, |arrays|, scopes)
      ensures arrays == old(arrays) && |scopes| == old(|scopes|)
      ensures finalIds == old(finalIds) && imports == old(imports)
      ensures VarsKept(old(arrays), arrays, -1)
      ensures r.Err? <==> name in old(context)[|old(context)| - 1]
      ensures r.Err? ==> r.msg == AlreadyBound && scopes == old(scopes)
      ensures r.Ok? ==>
                var top := old(scopeStack)[|old(scopeStack)| - 1];
                scopes == old(scopes)[top := old(scopes)[top] + [r.value]]
      ensures r.Ok? ==>
                && r.value == old(|vars|) < |vars|
                && vars[r.value].kind == IdentifierVar
                && vars[r.value].name == Prefixes(old(nameStack)) + name
                && vars[r.value].expr.None?
                && Unwound(old(nameStack), old(bindingStack), old(arrayStack), old(scopeStack),
                           Bound(old(context), name, r.value))
    {
      var q := QualifiedName(name);
      var id := NewVar(Var(IdentifierVar, q, q, 0, false, None, None));
      var bound := Bind(name, id);
      if bound.Fail? {
        return Err(bound.msg);
      }
      var top := scopeStack[|scopeStack| - 1];
      scopes := scopes[top := scopes[top] + [id]];
      r := Ok(id);
    }

    /** The expression half of a binding: generated with the name on the name stack and
        the identifier on the binding stack, then stored in the identifier. */
    method BindingBody(b: Binding, id: nat) returns (o: Outcome)
      requires Valid() && |scopeStack| > 0 && id < |vars| && vars[id].expr.None?
      modifies this
      ensures Valid() && Grows(old(vars), old(|arrays|), old(scopes), vars, |arrays|, scopes)
      ensures finalIds == old(finalIds) && imports == old(imports)
      ensures VarsKept(old(arrays), arrays, -1)
      ensures o.Pass? ==> Unwound(old(nameStack), old(bindingStack), old(arrayStack), old(scopeStack), old(context))
      ensures o.Pass? ==> vars[id].expr.Some? && BindingTranslates(b, vars[id].expr.value)
      decreases b, 11
    {
      nameStack := nameStack + [b.name];
      bindingStack := bindingStack + [id];
      var expr := DoDefinition(b);
      if expr.Err? {
        return Fail(expr.msg);
      }
      nameStack := nameStack[..|nameStack| - 1];
      bindingStack := bindingStack[..|bindingStack| - 1];
      GrowsDefined(old(vars), old(|arrays|), old(scopes), vars, |arrays|, scopes, id, expr.value);
      Define(id, expr.value);
      o := Pass;
    }

    /** The expression a binding defines: the function of its parameters when it has
        any, otherwise its body. */
    method DoDefinition(b: Binding) returns (r: Result<FExpr>)
      requires Valid() && |scopeStack| > 0
      modifies this
      ensures Valid() && Grows(old(vars), old(|arrays|), old(scopes), vars, |arrays|, scopes)
      ensures finalIds == old(finalIds) && imports == old(imports)
      ensures VarsKept(old(arrays), arrays, -1)
      ensures r.Ok? ==> Unwound(old(nameStack), old(bindingStack), old(arrayStack), old(scopeStack), old(context))
      ensures r.Ok? ==> BindingTranslates(b, r.value)
      decreases b, 10
    {
      if b.params.Some? {
        r := MakeFunc(b.params.value, b.body);
      } else {
        r := DoExpr(b.body);
      }
    }

    /** Store the definition of a variable that has none yet. */
    method Define(id: nat, x: FExpr)
      requires Valid() && id < |vars|
      modifies this
      ensures Valid() && vars == old(vars)[id := old(vars)[id].(expr := Some(x))]
      ensures Unwound(old(nameStack), old(bindingStack), old(arrayStack), old(scopeStack), old(context))
      ensures arrays == old(arrays) && scopes == old(scopes) && finalIds == old(finalIds) && imports == old(imports)
    {
      vars := vars[id := vars[id].(expr := Some(x))];
    }

    /** A binding: declared, then its expression generated. */
    method DoBinding(b: Binding) returns (r: Result<nat>)
      requires Valid() && |scopeStack| > 0
      modifies this
      ensures Valid() && Grows(old(vars), old(|arrays|), old(scopes), vars, |arrays|, scopes)
      ensures finalIds == old(finalIds) && imports == old(imports)
      ensures VarsKept(old(arrays), arrays, -1)
      ensures b.name in old(context)[|old(context)| - 1] ==> r == Err(AlreadyBound)
      ensures r.Ok? ==>
                && r.value == old(|vars|) < |vars|
                && vars[r.value].kind == IdentifierVar
                && vars[r.value].name == Prefixes(old(nameStack)) + b.name
                && vars[r.value].expr.Some? && BindingTranslates(b, vars[r.value].expr.value)
                && Unwound(old(nameStack), old(bindingStack), old(arrayStack), old(scopeStack),
                           Bound(old(context), b.name, r.value))
      ensures r.Ok? ==>
                var top := old(scopeStack)[|old(scopeStack)| - 1];
                old(scopes)[top] + [r.value] <= scopes[top]
      decreases b, 12
    {
      var id := DeclareBinding(b.name);
      if id.Err? {
        return Err(id.msg);
      }
      var body := BindingBody(b, id.value);
      if body.Fail? {
        return Err(body.msg);
      }
      r := Ok(id.value);
    }

    /** A primitive operation: its operands in order. */
    method DoPrimitive(e: Ast) returns (r: Result<FExpr>)
      requires e.PrimitiveApp? && Valid() && |scopeStack| > 0
      modifies this
      ensures Valid() && Grows(old(vars), old(|arrays|), old(scopes), vars, |arrays|, scopes)
      ensures finalIds == old(finalIds) && imports == old(imports)
      ensures VarsKept(old(arrays), arrays, -1)
      ensures r.Ok? ==> Unwound(old(nameStack), old(bindingStack), old(arrayStack), old(scopeStack), old(context))
      ensures r.Ok? ==> Translates(e, r.value)
      decreases e, 5
    {
      var operands := DoExprList(e.operands);
      if operands.Err? {
        return Err(operands.msg);
      }
      r := Ok(PrimitiveExpr(e.op, operands.value));
    }

    /** `object[args]`: the object, then the arguments. */
    method DoArrayApply(e: Ast) returns (r: Result<FExpr>)
      requires e.ArrayApply? && Valid() && |scopeStack| > 0
      modifies this
      ensures Valid() && Grows(old(vars), old(|arrays|), old(scopes), vars, |arrays|, scopes)
      ensures finalIds == old(finalIds) && imports == old(imports)
      ensures VarsKept(old(arrays), arrays, -1)
      ensures r.Ok? ==> Unwound(old(nameStack), old(bindingStack), old(arrayStack), old(scopeStack), old(context))
      ensures r.Ok? ==> Translates(e, r.value)
      decreases e, 5
    {
      var obj := DoExpr(e.applied);
      if obj.Err? {
        return Err(obj.msg);
      }
      var args := DoExprList(e.arrayArgs);
      if args.Err? {
        return Err(args.msg);
      }
      r := Ok(ArrayApp(obj.value, args.value));
    }

    /** `#object` or `#object@dim`: the object, then the dimension when given. */
    method DoArraySize(e: Ast) returns (r: Result<FExpr>)
      requires e.ArraySize? && Valid() && |scopeStack| > 0
      modifies this
      ensures Valid() && Grows(old(vars), old(|arrays|), old(scopes), vars, |arrays|, scopes)
      ensures finalIds == old(finalIds) && imports == old(imports)
      ensures VarsKept(old(arrays), arrays, -1)
      ensures r.Ok? ==> Unwound(old(nameStack), old(bindingStack), old(arrayStack), old(scopeStack), old(context))
      ensures r.Ok? ==> Translates(e, r.value)
      decreases e, 5
    {
      var obj := DoExpr(e.sized);
      if obj.Err? {
        return Err(obj.msg);
      }
      var dim: Option<FExpr> := None;
      if e.dim.Some? {
        var d := DoExpr(e.dim.value);
        if d.Err? {
          return Err(d.msg);
        }
        dim := Some(d.value);
      }
      r := Ok(ArraySizeExpr(obj.value, dim));
    }

    /** An application. The arguments come first; a callee that is a built-in function
        name gives a primitive operation (whatever the name is bound to), any other
        callee a function application. */
    method DoFuncApply(e: Ast) returns (r: Result<FExpr>)
      requires e.FuncApply? && Valid() && |scopeStack| > 0
      modifies this
      ensures Valid() && Grows(old(vars), old(|arrays|), old(scopes), vars, |arrays|, scopes)
      ensures finalIds == old(finalIds) && imports == old(imports)
      ensures VarsKept(old(arrays), arrays, -1)
      ensures r.Ok? ==> Unwound(old(nameStack), old(bindingStack), old(arrayStack), old(scopeStack), old(context))
      ensures r.Ok? ==> Translates(e, r.value)
      decreases e, 5
    {
      var args := DoExprList(e.callArgs);
      if args.Err? {
        return Err(args.msg);
      }
      if e.callee.Identifier? && e.callee.id in PrimOps {
        return Ok(PrimitiveExpr(PrimOps[e.callee.id], args.value));
      }
      var obj := DoExpr(e.callee);
      if obj.Err? {
        return Err(obj.msg);
      }
      r := Ok(FuncApp(obj.value, args.value));
    }

    /** The declared ranges of the innermost array, in order: the k-th becomes the
        index variable `ik` with that range. */
    method DeclareRanges(e: Ast) returns (o: Outcome)
      requires e.ArrayDef? && e.ranges.RangeList? && Valid() && |scopeStack| > 0 && |arrayStack| > 0
      requires arrays[arrayStack[|arrayStack| - 1]].vars == []
      modifies this
      ensures Valid() && Grows(old(vars), old(|arrays|), old(scopes), vars, |arrays|, scopes)
      ensures finalIds == old(finalIds) && imports == old(imports)
      ensures VarsKept(old(arrays), arrays, old(arrayStack)[|old(arrayStack)| - 1])
      ensures o.Pass? ==> Unwound(old(nameStack), old(bindingStack), old(arrayStack), old(scopeStack), old(context))
      ensures o.Pass? ==>
                var a := arrayStack[|arrayStack| - 1];
                && |arrays[a].vars| == |e.ranges.items|
                && forall j :: 0 <= j < |e.ranges.items| ==>
                     arrays[a].vars[j].name == ImplicitVarName(j) && Translates(e.ranges.items[j], arrays[a].vars[j].range)
      decreases e, 4
    {
      var a := arrayStack[|arrayStack| - 1];
      var i := 0;
      while i < |e.ranges.items|
        invariant 0 <= i <= |e.ranges.items| && a < |arrays|
        invariant Valid() && Grows(old(vars), old(|arrays|), old(scopes), vars, |arrays|, scopes)
        invariant finalIds == old(finalIds) && imports == old(imports)
        invariant VarsKept(old(arrays), arrays, old(arrayStack)[|old(arrayStack)| - 1])
        invariant Unwound(old(nameStack), old(bindingStack), old(arrayStack), old(scopeStack), old(context))
        invariant |arrays[a].vars| == i
        invariant forall j :: 0 <= j < i ==>
                    arrays[a].vars[j].name == ImplicitVarName(j) && Translates(e.ranges.items[j], arrays[a].vars[j].range)
      {
        var name := ImplicitVarName(|arrays[a].vars|);
        assert e.ranges.items[i] in e.ranges.items;
        var range := DoExpr(e.ranges.items[i]);
        if range.Err? {
          return Fail(range.msg);
        }
        AddArrayVar(a, ArrayVarInfo(name, range.value));
        i := i + 1;
      }
      o := Pass;
    }

    /** Append an index variable to array `a`; nothing else changes. */
    method AddArrayVar(a: nat, v: ArrayVarInfo)
      requires Valid() && a < |arrays|
      modifies this
      ensures Valid() && arrays == old(arrays)[a := old(arrays)[a].(vars := old(arrays)[a].vars + [v])]
      ensures vars == old(vars) && scopes == old(scopes) && finalIds == old(finalIds) && imports == old(imports)
      ensures Unwound(old(nameStack), old(bindingStack), old(arrayStack), old(scopeStack), old(context))
    {
      arrays := arrays[a := arrays[a].(vars := arrays[a].vars + [v])];
    }

    /** A fresh array, with a fresh functional scope, on top of the array stack. */
    method OpenArray() returns (a: nat, scope: nat)
      requires Valid()
      modifies this
      ensures Valid() && a == old(|arrays|) && scope == old(|scopes|)
      ensures arrays == old(arrays) + [ArrayInfo([], scope, false, None)] && scopes == old(scopes) + [[]]
      ensures Unwound(old(nameStack), old(bindingStack), old(arrayStack) + [a], old(scopeStack), old(context))
      ensures vars == old(vars) && finalIds == old(finalIds) && imports == old(imports)
    {
      a, scope := |arrays|, |scopes|;
      scopes := scopes + [[]];
      arrays := arrays + [ArrayInfo([], scope, false, None)];
      arrayStack := arrayStack + [a];
    }

    /** An array definition: a fresh array on the array stack; its declared ranges
        become index variables `i0`, `i1`, ...; its patterns are generated with the
        array's scope receiving the bindings inside them. */
    method DoArrayDef(e: Ast) returns (r: Result<FExpr>)
      requires e.ArrayDef? && Valid() && |scopeStack| > 0
      modifies this
      ensures Valid() && Grows(old(vars), old(|arrays|), old(scopes), vars, |arrays|, scopes)
      ensures finalIds == old(finalIds) && imports == old(imports)
      ensures VarsKept(old(arrays), arrays, -1)
      ensures r.Ok? ==> Unwound(old(nameStack), old(bindingStack), old(arrayStack), old(scopeStack), old(context))
      ensures r.Ok? ==>
                var a := old(|arrays|);
                && r.value == ArrayExpr(a) && a < |arrays|
                && arrays[a].body.Some? && arrays[a].body.value.ArrayPatterns?
                && |arrays[a].body.value.patterns| == |e.patterns|
                && (forall i :: 0 <= i < |e.patterns| ==>
                      PatternTranslates(e.patterns[i], arrays[a].body.value.patterns[i]))
                && (e.ranges.RangeList? && e.ranges.items != [] ==>
                      && |arrays[a].vars| == |e.ranges.items|
                      && forall j :: 0 <= j < |e.ranges.items| ==>
                           && arrays[a].vars[j].name == ImplicitVarName(j)
                           && Translates(e.ranges.items[j], arrays[a].vars[j].range))
      decreases e, 5
    {
      var a, scope := OpenArray();
      if e.ranges.RangeList? {
        var declared := DeclareRanges(e);
        if declared.Fail? {
          return Err(declared.msg);
        }
      }
      var patterns := FillArray(e.patterns, a, scope);
      if patterns.Err? {
        return Err(patterns.msg);
      }
      r := Ok(ArrayExpr(a));
    }

    /** The patterns of the innermost array `a`, generated with its scope on the scope
        stack and stored as its body; `a` is then taken off the array stack. */
    method FillArray(ps: seq<Pattern>, a: nat, scope: nat) returns (r: Result<seq<FPattern>>)
      requires Valid() && |scopeStack| > 0 && |arrayStack| > 0 && arrayStack[|arrayStack| - 1] == a
      requires scope < |scopes|
      modifies this
      ensures Valid() && Grows(old(vars), old(|arrays|), old(scopes), vars, |arrays|, scopes)
      ensures finalIds == old(finalIds) && imports == old(imports)
      ensures VarsKept(old(arrays), arrays, a)
      ensures r.Ok? ==>
                Unwound(old(nameStack), old(bindingStack), old(arrayStack)[..|old(arrayStack)| - 1],
                        old(scopeStack), old(context))
      ensures r.Ok? ==>
                && a < |arrays| && arrays[a].body == Some(ArrayPatterns(r.value))
                && |r.value| == |ps| && (forall i :: 0 <= i < |ps| ==> PatternTranslates(ps[i], r.value[i]))
                && (old(arrays)[a].vars != [] ==> arrays[a].vars == old(arrays)[a].vars)
      decreases ps, 6
    {
      scopeStack := scopeStack + [scope];
      r := DoArrayPatterns(ps);
      if r.Err? {
        return;
      }
      arrays := arrays[a := arrays[a].(body := Some(ArrayPatterns(r.value)))];
      scopeStack := scopeStack[..|scopeStack| - 1];
      arrayStack := arrayStack[..|arrayStack| - 1];
    }

    method DoArrayPatterns(ps: seq<Pattern>) returns (r: Result<seq<FPattern>>)
      requires Valid() && |scopeStack| > 0 && |arrayStack| > 0
      modifies this
      ensures Valid() && Grows(old(vars), old(|arrays|), old(scopes), vars, |arrays|, scopes)
      ensures finalIds == old(finalIds) && imports == old(imports)
      ensures VarsKept(old(arrays), arrays, old(arrayStack)[|old(arrayStack)| - 1])
      ensures r.Ok? ==> Unwound(old(nameStack), old(bindingStack), old(arrayStack), old(scopeStack), old(context))
      ensures r.Ok? ==> |r.value| == |ps| && forall i :: 0 <= i < |ps| ==> PatternTranslates(ps[i], r.value[i])
      ensures r.Ok? ==>
                var a := old(arrayStack)[|old(arrayStack)| - 1];
                old(arrays)[a].vars != [] ==> arrays[a].vars == old(arrays)[a].vars
      decreases ps, 5
    {
      var out: seq<FPattern> := [];
      var i := 0;
      while i < |ps|
        invariant 0 <= i <= |ps| && |out| == i
        invariant Valid() && Grows(old(vars), old(|arrays|), old(scopes), vars, |arrays|, scopes)
        invariant finalIds == old(finalIds) && imports == old(imports)
        invariant VarsKept(old(arrays), arrays, old(arrayStack)[|old(arrayStack)| - 1])
        invariant Unwound(old(nameStack), old(bindingStack), old(arrayStack), old(scopeStack), old(context))
        invariant forall j :: 0 <= j < i ==> PatternTranslates(ps[j], out[j])
        invariant var a := old(arrayStack)[|old(arrayStack)| - 1];
                  old(arrays)[a].vars != [] ==> arrays[a].vars == old(arrays)[a].vars
      {
        var p := DoArrayPattern(ps[i]);
        if p.Err? {
          return Err(p.msg);
        }
        out := out + [p.value];
        i := i + 1;
      }
      r := Ok(out);
    }

    /** An array declared without index variables gets `i0`, `i1`, ... of infinite
        range, one per index of the pattern. */
    method DeclareImplicitVars(n: nat)
      requires Valid() && |arrayStack| > 0
      modifies this
      ensures Valid() && vars == old(vars) && scopes == old(scopes)
      ensures Unwound(old(nameStack), old(bindingStack), old(arrayStack), old(scopeStack), old(context))
      ensures finalIds == old(finalIds) && imports == old(imports)
      ensures var a := arrayStack[|arrayStack| - 1];
              arrays == old(arrays)[a := old(arrays)[a].(vars := ImplicitVars(n))]
    {
      var a := arrayStack[|arrayStack| - 1];
      arrays := arrays[a := arrays[a].(vars := [])];
      var i := 0;
      while i < n
        invariant 0 <= i <= n
        invariant Valid() && vars == old(vars) && scopes == old(scopes)
        invariant Unwound(old(nameStack), old(bindingStack), old(arrayStack), old(scopeStack), old(context))
        invariant finalIds == old(finalIds) && imports == old(imports)
        invariant arrays == old(arrays)[a := old(arrays)[a].(vars := ImplicitVars(i))]
      {
        assert ImplicitVars(i) + [ArrayVarInfo(ImplicitVarName(i), Infinity)] == ImplicitVars(i + 1);
        arrays := arrays[a := arrays[a].(vars := arrays[a].vars + [ArrayVarInfo(ImplicitVarName(i), Infinity)])];
        i := i + 1;
      }
    }

    /** The index descriptions of a pattern against the array's index variables: a
        name becomes a fresh index variable with the range of its dimension, an
        integer literal a fixed index; anything else is an invalid pattern. */
    method DescribeIndexes(indexes: seq<Ast>, declared: seq<ArrayVarInfo>) returns (r: Result<seq<PatternIndex>>)
      requires Valid() && |indexes| == |declared|
      modifies this
      ensures Valid() && Grows(old(vars), |arrays|, scopes, vars, |arrays|, scopes)
      ensures Unwound(old(nameStack), old(bindingStack), old(arrayStack), old(scopeStack), old(context))
      ensures arrays == old(arrays) && scopes == old(scopes) && finalIds == old(finalIds) && imports == old(imports)
      ensures r.Err? <==> exists i :: 0 <= i < |indexes| && !IndexForm(indexes[i])
      ensures r.Err? ==> r.msg == InvalidIndexPattern
      ensures r.Ok? ==>
                && |r.value| == |indexes|
                && forall i :: 0 <= i < |indexes| ==>
                     && IndexMeaning(indexes[i], r.value[i])
                     && (r.value[i].IndexVar? ==>
                           && old(|vars|) <= r.value[i].variable < |vars|
                           && vars[r.value[i].variable]
                              == Var(ArrayVar, indexes[i].id, indexes[i].id, 0, false, Some(declared[i].range), None))
    {
      var out: seq<PatternIndex> := [];
      var d := 0;
      while d < |indexes|
        invariant 0 <= d <= |indexes| && |out| == d
        invariant Valid() && Grows(old(vars), |arrays|, scopes, vars, |arrays|, scopes)
        invariant Unwound(old(nameStack), old(bindingStack), old(arrayStack), old(scopeStack), old(context))
        invariant arrays == old(arrays) && scopes == old(scopes) && finalIds == old(finalIds) && imports == old(imports)
        invariant forall i :: 0 <= i < d ==> IndexMeaning(indexes[i], out[i])
        invariant forall i :: 0 <= i < d ==> out[i].IndexVar? ==>
                    && old(|vars|) <= out[i].variable < |vars|
                    && vars[out[i].variable] == Var(ArrayVar, indexes[i].id, indexes[i].id, 0, false,
                                                    Some(declared[i].range), None)
      {
        var x := indexes[d];
        if x.Identifier? {
          var v := NewVar(Var(ArrayVar, x.id, x.id, 0, false, Some(declared[d].range), None));
          out := out + [IndexVar(v)];
        } else if x.Constant? && x.value.IntValue? {
          out := out + [IndexValue(x.value.i)];
        } else {
          return Err(InvalidIndexPattern);
        }
        d := d + 1;
      }
      r := Ok(out);
    }

    /** The index part of an array pattern. An array without index variables gets one
        implicit variable per index; otherwise the pattern must have one index per
        variable. */
    method PatternIndexes(p: Pattern) returns (r: Result<seq<PatternIndex>>)
      requires Valid() && |arrayStack| > 0
      modifies this
      ensures Valid() && Grows(old(vars), old(|arrays|), old(scopes), vars, |arrays|, scopes)
      ensures Unwound(old(nameStack), old(bindingStack), old(arrayStack), old(scopeStack), old(context))
      ensures scopes == old(scopes) && finalIds == old(finalIds) && imports == old(imports)
      ensures VarsKept(old(arrays), arrays, old(arrayStack)[|old(arrayStack)| - 1])
      ensures var a := arrayStack[|arrayStack| - 1];
              var declared := old(arrays)[a].vars;
              && (declared != [] && |p.indexes| != |declared| <==> r == Err(IndexCountMismatch))
              && (r.Err? ==> r == Err(IndexCountMismatch) || r == Err(InvalidIndexPattern))
              && (r.Err? && r.msg == InvalidIndexPattern ==>
                    exists i :: 0 <= i < |p.indexes| && !IndexForm(p.indexes[i]))
              && (r.Ok? ==>
                    && arrays[a].vars == (if declared == [] then ImplicitVars(|p.indexes|) else declared)
                    && |r.value| == |p.indexes|
                    && forall i :: 0 <= i < |p.indexes| ==>
                         && IndexMeaning(p.indexes[i], r.value[i])
                         && (r.value[i].IndexVar? ==>
                               && old(|vars|) <= r.value[i].variable < |vars|
                               && vars[r.value[i].variable]
                                  == Var(ArrayVar, p.indexes[i].id, p.indexes[i].id, 0, false,
                                         Some(arrays[a].vars[i].range), None)))
    {
      var a := arrayStack[|arrayStack| - 1];
      if arrays[a].vars == [] {
        DeclareImplicitVars(|p.indexes|);
      } else if |p.indexes| != |arrays[a].vars| {
        return Err(IndexCountMismatch);
      }
      r := DescribeIndexes(p.indexes, arrays[a].vars);
    }

    /** Bind the name of every index variable in the innermost scope, in order. This
        fails exactly when two index variables share a name or one is bound in that
        scope already; otherwise each name is bound to its variable. */
    method BindIndexVars(xs: seq<PatternIndex>) returns (o: Outcome)
      requires Valid() && forall i :: 0 <= i < |xs| && xs[i].IndexVar? ==> xs[i].variable < |vars|
      modifies this
      ensures Valid() && vars == old(vars) && arrays == old(arrays) && scopes == old(scopes)
      ensures finalIds == old(finalIds) && imports == old(imports)
      ensures nameStack == old(nameStack) && bindingStack == old(bindingStack)
      ensures arrayStack == old(arrayStack) && scopeStack == old(scopeStack)
      ensures |context| == |old(context)| && context[..|context| - 1] == old(context)[..|context| - 1]
      ensures o.Fail? ==> o.msg == AlreadyBound
      ensures o.Pass? <==>
                && Distinct(IndexVarNames(vars, xs))
                && forall i :: 0 <= i < |xs| && xs[i].IndexVar? ==>
                     vars[xs[i].variable].name !in old(context)[|old(context)| - 1]
      ensures o.Pass? ==> forall i :: 0 <= i < |xs| && xs[i].IndexVar? ==>
                && vars[xs[i].variable].name in context[|context| - 1]
                && context[|context| - 1][vars[xs[i].variable].name] == xs[i].variable
    {
      var ids, names := IndexVarIds(xs), IndexVarNames(vars, xs);
      IndexVarsPaired(vars, xs);
      o := BindAll(names, ids);
      forall i | 0 <= i < |xs| && xs[i].IndexVar?
        ensures vars[xs[i].variable].name in names
        ensures o.Pass? ==> context[|context| - 1][vars[xs[i].variable].name] == xs[i].variable
      {
        var k := IndexVarListed(xs, i);
        assert names[k] == vars[xs[i].variable].name;
      }
      forall k | 0 <= k < |names|
        ensures exists i :: 0 <= i < |xs| && xs[i].IndexVar? && names[k] == vars[xs[i].variable].name
      {
        var i := IndexVarSource(xs, k);
        assert names[k] == vars[xs[i].variable].name;
      }
    }

    /** An array pattern: its index variables bound in a scope of their own, then its
        domains and its body. */
    method DoArrayPattern(p: Pattern) returns (r: Result<FPattern>)
      requires Valid() && |scopeStack| > 0 && |arrayStack| > 0
      modifies this
      ensures Valid() && Grows(old(vars), old(|arrays|), old(scopes), vars, |arrays|, scopes)
      ensures finalIds == old(finalIds) && imports == old(imports)
      ensures VarsKept(old(arrays), arrays, old(arrayStack)[|old(arrayStack)| - 1])
      ensures r.Ok? ==> Unwound(old(nameStack), old(bindingStack), old(arrayStack), old(scopeStack), old(context))
      ensures r.Ok? ==> PatternTranslates(p, r.value)
      ensures r.Ok? ==>
                var a := old(arrayStack)[|old(arrayStack)| - 1];
                arrays[a].vars == (if old(arrays)[a].vars == [] then ImplicitVars(|p.indexes|) else old(arrays)[a].vars)
      ensures r.Ok? ==> IndexVarsFresh(vars, old(|vars|), p.indexes, r.value.indexes)
      decreases p, 6
    {
      var indexes := PatternIndexes(p);
      if indexes.Err? {
        return Err(indexes.msg);
      }
      assert IndexVarsFresh(vars, old(|vars|), p.indexes, indexes.value);
      ghost var v1 := vars;
      r := BindPattern(p, indexes.value);
      if r.Ok? {
        IndexVarsFreshGrows(v1, vars, old(|vars|), p.indexes, indexes.value);
      }
    }

    /** An array pattern whose indexes are already described as `xs`: the index
        variables bound in a name scope of their own, then the domains and the body. */
    method BindPattern(p: Pattern, xs: seq<PatternIndex>) returns (r: Result<FPattern>)
      requires Valid() && |scopeStack| > 0
      requires forall i :: 0 <= i < |xs| && xs[i].IndexVar? ==> xs[i].variable < |vars|
      modifies this
      ensures Valid() && Grows(old(vars), old(|arrays|), old(scopes), vars, |arrays|, scopes)
      ensures finalIds == old(finalIds) && imports == old(imports)
      ensures VarsKept(old(arrays), arrays, -1)
      ensures r.Ok? ==> Unwound(old(nameStack), old(bindingStack), old(arrayStack), old(scopeStack), old(context))
      ensures r.Ok? ==>
                && r.value.indexes == xs
                && (r.value.domains.Some? <==> p.domains.DomainList?)
                && (p.domains.DomainList? ==> DomainsTranslate(p.domains.cases, r.value.domains.value))
                && Translates(p.body, r.value.body)
      decreases p, 5
    {
      var saved := context;
      context := context + [map[]];
      var bound := BindIndexVars(xs);
      if bound.Fail? {
        return Err(bound.msg);
      }
      var domains, body := DoPatternBody(p);
      if body.Err? {
        return Err(body.msg);
      }
      assert context[..|saved|] == saved;
      context := saved;
      r := Ok(FPattern(xs, domains, body.value));
    }

    /** The domains of a pattern, when it has any, then its body. */
    method DoPatternBody(p: Pattern) returns (domains: Option<FExpr>, r: Result<FExpr>)
      requires Valid() && |scopeStack| > 0
      modifies this
      ensures Valid() && Grows(old(vars), old(|arrays|), old(scopes), vars, |arrays|, scopes)
      ensures finalIds == old(finalIds) && imports == old(imports)
      ensures VarsKept(old(arrays), arrays, -1)
      ensures r.Ok? ==> Unwound(old(nameStack), old(bindingStack), old(arrayStack), old(scopeStack), old(context))
      ensures r.Ok? ==>
                && (domains.Some? <==> p.domains.DomainList?)
                && (p.domains.DomainList? ==> DomainsTranslate(p.domains.cases, domains.value))
                && Translates(p.body, r.value)
      decreases p, 4
    {
      domains := None;
      if p.domains.DomainList? {
        var ds := DoArrayDomains(p);
        if ds.Err? {
          return None, Err(ds.msg);
        }
        domains := Some(ds.value);
      }
      r := DoExpr(p.body);
    }

    /** The domains of a pattern: a case expression of (domain, value) pairs. */
    method DoArrayDomains(p: Pattern) returns (r: Result<FExpr>)
      requires p.domains.DomainList? && Valid() && |scopeStack| > 0
      modifies this
      ensures Valid() && Grows(old(vars), old(|arrays|), old(scopes), vars, |arrays|, scopes)
      ensures finalIds == old(finalIds) && imports == old(imports)
      ensures VarsKept(old(arrays), arrays, -1)
      ensures r.Ok? ==> Unwound(old(nameStack), old(bindingStack), old(arrayStack), old(scopeStack), old(context))
      ensures r.Ok? ==> DomainsTranslate(p.domains.cases, r.value)
      decreases p, 3
    {
      var cases := p.domains.cases;
      var out: seq<FCase> := [];
      var i := 0;
      while i < |cases|
        invariant 0 <= i <= |cases| && |out| == i
        invariant Valid() && Grows(old(vars), old(|arrays|), old(scopes), vars, |arrays|, scopes)
        invariant finalIds == old(finalIds) && imports == old(imports)
        invariant VarsKept(old(arrays), arrays, -1)
        invariant Unwound(old(nameStack), old(bindingStack), old(arrayStack), old(scopeStack), old(context))
        invariant forall j :: 0 <= j < i ==>
                    Translates(cases[j].domain, out[j].domain) && Translates(cases[j].value, out[j].value)
      {
        assert cases[i] in cases;
        var c := DoDomainCase(cases[i]);
        if c.Err? {
          return Err(c.msg);
        }
        out := out + [c.value];
        i := i + 1;
      }
      r := Ok(CaseExpr(out));
    }

    /** One (domain, value) pair of a pattern's domains: the domain, then the value. */
    method DoDomainCase(c: DomainCase) returns (r: Result<FCase>)
      requires Valid() && |scopeStack| > 0
      modifies this
      ensures Valid() && Grows(old(vars), old(|arrays|), old(scopes), vars, |arrays|, scopes)
      ensures finalIds == old(finalIds) && imports == old(imports)
      ensures VarsKept(old(arrays), arrays, -1)
      ensures r.Ok? ==> Unwound(old(nameStack), old(bindingStack), old(arrayStack), old(scopeStack), old(context))
      ensures r.Ok? ==> Translates(c.domain, r.value.domain) && Translates(c.value, r.value.value)
      decreases c, 11
    {
      var d := DoExpr(c.domain);
      if d.Err? {
        return Err(d.msg);
      }
      var v := DoExpr(c.value);
      if v.Err? {
        return Err(v.msg);
      }
      r := Ok(FCase(d.value, v.value));
    }

    /** One module: its program's bindings, generated into a fresh functional scope and
        a fresh name scope; the result is the identifiers stored in that scope. */
    method GenerateModule(m: Module) returns (r: Result<seq<nat>>)
      requires Valid()
      modifies this
      ensures Valid() && Grows(old(vars), old(|arrays|), old(scopes), vars, |arrays|, scopes)
      ensures finalIds == old(finalIds) && imports == old(imports)
      ensures !m.ast.Program? ==> r == Err(InvalidRoot)
      ensures r.Ok? ==> Unwound(old(nameStack), old(bindingStack), old(arrayStack), old(scopeStack), old(context))
      ensures r.Ok? ==> forall i :: 0 <= i < |r.value| ==> r.value[i] < |vars| && vars[r.value[i]].kind == IdentifierVar
      ensures r.Ok? && m.ast.bindings.Some? ==>
                forall i :: 0 <= i < |m.ast.bindings.value| ==>
                  Declares(vars, r.value, 0, Prefixes(old(nameStack)), m.ast.bindings.value[i])
    {
      if !m.ast.Program? {
        return Err(InvalidRoot);
      }
      var saved := context;
      var scope := OpenModuleScope();
      var done := DoBindings(if m.ast.bindings.Some? then m.ast.bindings.value else []);
      if done.Fail? {
        return Err(done.msg);
      }
      CloseModuleScope(saved);
      r := Ok(scopes[scope]);
    }

    /** A fresh, empty functional scope and a fresh name scope for a module. */
    method OpenModuleScope() returns (scope: nat)
      requires Valid()
      modifies this
      ensures Valid() && scope == |old(scopes)| && scopes == old(scopes) + [[]]
      ensures scopeStack == old(scopeStack) + [scope] && context == old(context) + [map[]]
      ensures vars == old(vars) && arrays == old(arrays) && finalIds == old(finalIds) && imports == old(imports)
      ensures nameStack == old(nameStack) && bindingStack == old(bindingStack) && arrayStack == old(arrayStack)
    {
      scope := |scopes|;
      scopes := scopes + [[]];
      scopeStack := scopeStack + [scope];
      context := context + [map[]];
    }

    /** Leave a module's scopes: the name environment is restored to `saved`. */
    method CloseModuleScope(saved: seq<map<string, nat>>)
      requires Valid() && |scopeStack| > 0 && |saved| > 0
      requires |context| == |saved| + 1 && context[..|saved|] == saved
      modifies this
      ensures Valid() && context == saved && scopeStack == old(scopeStack)[..|old(scopeStack)| - 1]
      ensures vars == old(vars) && arrays == old(arrays) && scopes == old(scopes)
      ensures finalIds == old(finalIds) && imports == old(imports)
      ensures nameStack == old(nameStack) && bindingStack == old(bindingStack) && arrayStack == old(arrayStack)
    {
      context := saved;
      scopeStack := scopeStack[..|scopeStack| - 1];
    }

    /** One module generated under its own import aliases and, when `named`, with its
        name on the name stack. */
    method GenerateInModule(m: Module, named: bool) returns (r: Result<seq<nat>>)
      requires Valid()
      modifies this
      ensures Valid() && Grows(old(vars), old(|arrays|), old(scopes), vars, |arrays|, scopes)
      ensures finalIds == old(finalIds)
      ensures r.Ok? ==> nameStack == old(nameStack) && imports == old(imports)
      ensures r.Ok? ==> forall i :: 0 <= i < |r.value| ==> r.value[i] < |vars| && vars[r.value[i]].kind == IdentifierVar
      ensures r.Ok? ==> m.ast.Program?
      ensures r.Ok? && m.ast.bindings.Some? ==>
                forall i :: 0 <= i < |m.ast.bindings.value| ==>
                  Declares(vars, r.value, 0, Prefixes(old(nameStack)) + (if named then m.name + "." else ""),
                           m.ast.bindings.value[i])
    {
      var savedImports, savedNames := imports, nameStack;
      imports := m.imports;
      ModuleNamesPrefix(nameStack, named, m.name);
      nameStack := ModuleNames(nameStack, named, m.name);
      r := GenerateModule(m);
      if r.Err? {
        return;
      }
      nameStack, imports := savedNames, savedImports;
    }

    /** Record each identifier under its name, unless one of that name is recorded
        already (`emplace` keeps the first). */
    method RecordIds(ids: seq<nat>)
      requires Valid() && forall k :: 0 <= k < |ids| ==> ids[k] < |vars|
      modifies this
      ensures Valid() && Unwound(old(nameStack), old(bindingStack), old(arrayStack), old(scopeStack), old(context))
      ensures vars == old(vars) && arrays == old(arrays) && scopes == old(scopes) && imports == old(imports)
      ensures forall k :: k in old(finalIds) ==> k in finalIds && finalIds[k] == old(finalIds)[k]
      ensures forall k :: 0 <= k < |ids| ==> vars[ids[k]].name in finalIds
      ensures forall n :: n in finalIds && n !in old(finalIds) ==>
                exists k :: 0 <= k < |ids| && vars[ids[k]].name == n && finalIds[n] == ids[k]
    {
      var j := 0;
      while j < |ids|
        invariant 0 <= j <= |ids|
        invariant Valid() && Unwound(old(nameStack), old(bindingStack), old(arrayStack), old(scopeStack), old(context))
        invariant vars == old(vars) && arrays == old(arrays) && scopes == old(scopes) && imports == old(imports)
        invariant forall k :: k in old(finalIds) ==> k in finalIds && finalIds[k] == old(finalIds)[k]
        invariant forall k :: 0 <= k < j ==> vars[ids[k]].name in finalIds
        invariant forall n :: n in finalIds && n !in old(finalIds) ==>
                    exists k :: 0 <= k < j && vars[ids[k]].name == n && finalIds[n] == ids[k]
      {
        var name := vars[ids[j]].name;
        if name !in finalIds {
          finalIds := finalIds[name := ids[j]];
        }
        j := j + 1;
      }
    }

    /** One module generated, then its identifiers recorded under their names. */
    method ExportModule(m: Module, named: bool) returns (r: Result<seq<nat>>)
      requires Valid()
      modifies this
      ensures Valid()
      ensures forall k :: k in old(finalIds) ==> k in finalIds && finalIds[k] == old(finalIds)[k]
      ensures forall n :: n in finalIds && n !in old(finalIds) ==>
                finalIds[n] < |vars| && vars[finalIds[n]].kind == IdentifierVar && vars[finalIds[n]].name == n
      ensures VarsGrow(old(vars), vars)
      ensures r.Ok? ==> nameStack == old(nameStack) && imports == old(imports)
      ensures r.Ok? ==> forall i :: 0 <= i < |r.value| ==>
                r.value[i] < |vars| && vars[r.value[i]].kind == IdentifierVar && vars[r.value[i]].name in finalIds
      ensures r.Ok? ==> m.ast.Program?
      ensures r.Ok? && m.ast.bindings.Some? ==>
                forall j :: 0 <= j < |m.ast.bindings.value| ==>
                  Prefixes(old(nameStack)) + (if named then m.name + "." else "") + m.ast.bindings.value[j].name
                    in finalIds
    {
      r := GenerateInModule(m, named);
      if r.Err? {
        return;
      }
      RecordIds(r.value);
      if m.ast.bindings.Some? {
        var bs := m.ast.bindings.value;
        var prefix := Prefixes(old(nameStack)) + (if named then m.name + "." else "");
        forall j | 0 <= j < |bs|
          ensures prefix + bs[j].name in finalIds
        {
          var k :| 0 <= k < |r.value| && r.value[k] < |vars|
            && vars[r.value[k]].kind == IdentifierVar && vars[r.value[k]].name == prefix + bs[j].name
            && vars[r.value[k]].expr.Some? && BindingTranslates(bs[j], vars[r.value[k]].expr.value);
        }
      }
    }

    /** Several modules, in order: every module but the last is generated with its name
        on the name stack, and every identifier generated is recorded under its name
        unless an identifier of that name is recorded already. */
    method Generate(mods: seq<Module>) returns (r: Result<seq<nat>>)
      requires Valid()
      modifies this
      ensures Valid()
      ensures forall k :: k in old(finalIds) ==> k in finalIds && finalIds[k] == old(finalIds)[k]
      ensures r.Ok? ==> nameStack == old(nameStack) && imports == old(imports)
      ensures r.Ok? ==> forall i :: 0 <= i < |r.value| ==>
                r.value[i] < |vars| && vars[r.value[i]].kind == IdentifierVar && vars[r.value[i]].name in finalIds
      ensures forall n :: n in finalIds && n !in old(finalIds) ==>
                finalIds[n] < |vars| && vars[finalIds[n]].kind == IdentifierVar && vars[finalIds[n]].name == n
      ensures r.Ok? ==> forall i :: 0 <= i < |mods| ==> mods[i].ast.Program?
      ensures r.Ok? ==>
                forall i, j :: 0 <= i < |mods| && mods[i].ast.bindings.Some? && 0 <= j < |mods[i].ast.bindings.value| ==>
                  Prefixes(old(nameStack)) + (if i != |mods| - 1 then mods[i].name + "." else "")
                    + mods[i].ast.bindings.value[j].name in finalIds
    {
      var all: seq<nat> := [];
      var i := 0;
      while i < |mods|
        invariant 0 <= i <= |mods|
        invariant Valid() && nameStack == old(nameStack) && imports == old(imports)
        invariant forall k :: k in old(finalIds) ==> k in finalIds && finalIds[k] == old(finalIds)[k]
        invariant forall j :: 0 <= j < |all| ==>
                    all[j] < |vars| && vars[all[j]].kind == IdentifierVar && vars[all[j]].name in finalIds
        invariant forall n :: n in finalIds && n !in old(finalIds) ==>
                    finalIds[n] < |vars| && vars[finalIds[n]].kind == IdentifierVar && vars[finalIds[n]].name == n
        invariant forall i' :: 0 <= i' < i ==> mods[i'].ast.Program?
        invariant forall i', j :: 0 <= i' < i && mods[i'].ast.bindings.Some? && 0 <= j < |mods[i'].ast.bindings.value| ==>
                    Prefixes(old(nameStack)) + (if i' != |mods| - 1 then mods[i'].name + "." else "")
                      + mods[i'].ast.bindings.value[j].name in finalIds
      {
        var ids := ExportModule(mods[i], i != |mods| - 1);
        if ids.Err? {
          return Err(ids.msg);
        }
        all := all + ids.value;
        i := i + 1;
      }
      r := Ok(all);
    }
  }
}
