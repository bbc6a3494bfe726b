/** The LLVM backend's statement code generation (polyhedral/llvm_from_model.cpp).
    An llvm::Value* that holds an index is modelled as the integer the emitted IR
    computes at run time; the floating-point values a statement computes are kept
    symbolic (Val). The run-time buffer state the IR reads (one phase per buffer
    descriptor) is a field of the generator. */
module LlvmFromModel {
  import opened Common
  import opened PolyModel

  // ---------------------------------------------------------------------------
  // Storage order: move one dimension to the front.

  /** v with element d moved to the front and elements 0..d-1 shifted up by one. */
  function Transposed<T>(v: seq<T>, d: nat): seq<T>
    requires d < |v|
  {
    [v[d]] + v[..d] + v[d + 1..]
  }

  /** Transposition is a permutation that only touches positions 0..d. */
  lemma TransposedElements<T>(v: seq<T>, d: nat)
    requires d < |v|
    ensures |Transposed(v, d)| == |v|
    ensures multiset(Transposed(v, d)) == multiset(v)
    ensures Transposed(v, d)[0] == v[d]
    ensures forall k :: 0 < k <= d ==> Transposed(v, d)[k] == v[k - 1]
    ensures forall k :: d < k < |v| ==> Transposed(v, d)[k] == v[k]
  {
    assert v == v[..d] + [v[d]] + v[d + 1..];
    calc {
      multiset(Transposed(v, d));
      multiset([v[d]]) + multiset(v[..d]) + multiset(v[d + 1..]);
      multiset(v[..d]) + multiset([v[d]]) + multiset(v[d + 1..]);
      multiset(v[..d] + [v[d]] + v[d + 1..]);
    }
  }

  /** Two index vectors of the same length with the same transposition are equal. */
  lemma TransposedInjective<T>(p: seq<T>, q: seq<T>, d: nat)
    requires d < |p| == |q|
    requires Transposed(p, d) == Transposed(q, d)
    ensures p == q
  {
    TransposedElements(p, d);
    TransposedElements(q, d);
    forall k | 0 <= k < |p|
      ensures p[k] == q[k]
    {
      if k == d {
        assert p[k] == Transposed(p, d)[0];
      } else if k < d {
        assert p[k] == Transposed(p, d)[k + 1];
      } else {
        assert p[k] == Transposed(p, d)[k];
      }
    }
  }

  // ---------------------------------------------------------------------------
  // Row-major flattening.

  /** flat_index as a Horner scheme: start from index[0]; for each later dimension
      multiply by its extent and add the coordinate. */
  function Flat(index: seq<int>, domain: seq<int>): int
    requires 0 < |index| == |domain|
    decreases |index|
  {
    if |index| == 1 then index[0]
    else Flat(index[..|index| - 1], domain[..|domain| - 1]) * domain[|domain| - 1] + index[|index| - 1]
  }

  function Product(s: seq<int>): int
  {
    if |s| == 0 then 1 else s[0] * Product(s[1..])
  }

  /** The textbook row-major offset: sum of index[i] times the product of the extents after i. */
  function RowMajor(index: seq<int>, domain: seq<int>): int
    requires |index| == |domain|
  {
    if |index| == 0 then 0 else index[0] * Product(domain[1..]) + RowMajor(index[1..], domain[1..])
  }

  lemma {:induction false} ProductSnoc(s: seq<int>, b: int)
    ensures Product(s + [b]) == Product(s) * b
  {
    if |s| > 0 {
      assert (s + [b])[1..] == s[1..] + [b];
      ProductSnoc(s[1..], b);
      assert s[0] * (Product(s[1..]) * b) == (s[0] * Product(s[1..])) * b;
    }
  }

  lemma {:induction false} RowMajorSnoc(x: seq<int>, d: seq<int>, a: int, b: int)
    requires |x| == |d|
    ensures RowMajor(x + [a], d + [b]) == RowMajor(x, d) * b + a
  {
    if |x| == 0 {
      assert (x + [a])[1..] == [] && (d + [b])[1..] == [];
    } else {
      assert (x + [a])[1..] == x[1..] + [a];
      assert (d + [b])[1..] == d[1..] + [b];
      RowMajorSnoc(x[1..], d[1..], a, b);
      ProductSnoc(d[1..], b);
      var p, r := Product(d[1..]), RowMajor(x[1..], d[1..]);
      assert x[0] * (p * b) + (r * b + a) == (x[0] * p + r) * b + a;
    }
  }

  /** The Horner evaluation computes the row-major offset. */
  lemma {:induction false} FlatIsRowMajor(index: seq<int>, domain: seq<int>)
    requires 0 < |index| == |domain|
    ensures Flat(index, domain) == RowMajor(index, domain)
    decreases |index|
  {
    var n := |index|;
    if n == 1 {
      assert index[1..] == [] && domain[1..] == [];
      assert RowMajor(index, domain) == index[0] * Product([]) + RowMajor([], []);
    } else {
      var x, d, a, b := index[..n - 1], domain[..n - 1], index[n - 1], domain[n - 1];
      assert Flat(index, domain) == Flat(x, d) * b + a;
      FlatIsRowMajor(x, d);
      assert x + [a] == index && d + [b] == domain;
      RowMajorSnoc(x, d, a, b);
    }
  }

  /** flat_index never reads the extent of the first dimension. */
  lemma {:induction false} FlatIgnoresFirstExtent(index: seq<int>, domain: seq<int>, extent: int)
    requires 0 < |index| == |domain|
    ensures Flat(index, domain) == Flat(index, domain[0 := extent])
    decreases |index|
  {
    var n := |index|;
    if n > 1 {
      assert domain[0 := extent][..n - 1] == domain[..n - 1][0 := extent];
      FlatIgnoresFirstExtent(index[..n - 1], domain[..n - 1], extent);
    }
  }

  /** Every coordinate after the first lies within its extent. */
  ghost predicate InBox(index: seq<int>, domain: seq<int>)
    requires |index| == |domain|
  {
    forall i :: 1 <= i < |index| ==> 0 <= index[i] < domain[i]
  }

  /** A point in the box lies in the slab of its first coordinate:
      index[0]·P <= flat < (index[0]+1)·P, P being the product of the later extents. */
  lemma {:induction false} FlatBounds(index: seq<int>, domain: seq<int>)
    requires 0 < |index| == |domain| && InBox(index, domain)
    ensures index[0] * Product(domain[1..]) <= Flat(index, domain) < (index[0] + 1) * Product(domain[1..])
    decreases |index|
  {
    var n := |index|;
    if n == 1 {
      assert domain[1..] == [];
    } else {
      var x, d := index[..n - 1], domain[..n - 1];
      assert InBox(x, d);
      FlatBounds(x, d);
      var f, p, b := Flat(x, d), Product(d[1..]), domain[n - 1];
      assert domain[1..] == d[1..] + [b];
      ProductSnoc(d[1..], b);
      SlabStep(x[0], p, f, index[n - 1], b);
    }
  }

  /** One Horner step keeps a point inside the slab of its first coordinate. */
  lemma SlabStep(x0: int, p: int, f: int, a: int, b: int)
    requires x0 * p <= f < (x0 + 1) * p && 0 <= a < b
    ensures x0 * (p * b) <= f * b + a < (x0 + 1) * (p * b)
  {
    MulMonotone(x0 * p, f, b);
    MulMonotone(f, (x0 + 1) * p - 1, b);
    assert (x0 * p) * b == x0 * (p * b);
    assert ((x0 + 1) * p - 1) * b == (x0 + 1) * (p * b) - b;
  }

  /** The coordinates of a flat offset: the inverse of Flat on the box. */
  function Unflatten(flat: int, domain: seq<int>): (r: seq<int>)
    requires 0 < |domain|
    requires forall i :: 1 <= i < |domain| ==> 0 < domain[i]
    ensures |r| == |domain|
    decreases |domain|
  {
    if |domain| == 1 then [flat]
    else Unflatten(flat / domain[|domain| - 1], domain[..|domain| - 1]) + [flat % domain[|domain| - 1]]
  }

  /** Flattening a point of the box and un-flattening the offset gives the point back. */
  lemma {:induction false} UnflattenFlat(index: seq<int>, domain: seq<int>)
    requires 0 < |index| == |domain| && InBox(index, domain)
    ensures Unflatten(Flat(index, domain), domain) == index
    decreases |index|
  {
    var n := |index|;
    if n > 1 {
      var x, d := index[..n - 1], domain[..n - 1];
      assert InBox(x, d);
      UnflattenFlat(x, d);
      var f, a, b := Flat(x, d), index[n - 1], domain[n - 1];
      assert Flat(index, domain) == f * b + a;
      DivModOfMulAdd(f, b, a);
      assert Unflatten(f * b + a, domain) == Unflatten((f * b + a) / b, d) + [(f * b + a) % b];
      assert index == x + [a];
    }
  }

  /** Un-flattening any offset and flattening the coordinates gives the offset back. */
  lemma {:induction false} FlatUnflatten(flat: int, domain: seq<int>)
    requires 0 < |domain|
    requires forall i :: 1 <= i < |domain| ==> 0 < domain[i]
    ensures Flat(Unflatten(flat, domain), domain) == flat
    decreases |domain|
  {
    var n := |domain|;
    if n > 1 {
      var d, b := domain[..n - 1], domain[n - 1];
      FlatUnflatten(flat / b, d);
      var u := Unflatten(flat, domain);
      assert u[..n - 1] == Unflatten(flat / b, d);
      assert u[n - 1] == flat % b;
    }
  }

  // ---------------------------------------------------------------------------
  // Slice size: the number of elements one step of the storage dimension holds.

  /** Product of the finite extents; unbounded (negative) extents are skipped. */
  function SliceSize(domain: seq<int>): int
  {
    if |domain| == 0 then 1
    else if domain[|domain| - 1] >= 0 then SliceSize(domain[..|domain| - 1]) * domain[|domain| - 1]
    else SliceSize(domain[..|domain| - 1])
  }

  lemma {:induction false} SliceSizeAllInfinite(domain: seq<int>)
    requires forall i :: 0 <= i < |domain| ==> domain[i] < 0
    ensures SliceSize(domain) == 1
  {
    if |domain| > 0 {
      SliceSizeAllInfinite(domain[..|domain| - 1]);
    }
  }

  lemma {:induction false} SliceSizeConcat(a: seq<int>, b: seq<int>)
    ensures SliceSize(a + b) == SliceSize(a) * SliceSize(b)
    decreases |b|
  {
    if |b| == 0 {
      assert a + b == a;
    } else {
      var n := |b|;
      assert (a + b)[..|a + b| - 1] == a + b[..n - 1];
      SliceSizeConcat(a, b[..n - 1]);
      var sa, sb := SliceSize(a), SliceSize(b[..n - 1]);
      if b[n - 1] >= 0 {
        assert sa * sb * b[n - 1] == sa * (sb * b[n - 1]);
      }
    }
  }

  /** The slice size does not depend on the storage order. */
  lemma SliceSizeTransposed(domain: seq<int>, d: nat)
    requires d < |domain|
    ensures SliceSize(Transposed(domain, d)) == SliceSize(domain)
  {
    SplitAround(domain, d);
    SliceSizeSwapFront([domain[d]], domain[..d], domain[d + 1..]);
  }

  lemma SplitAround(v: seq<int>, d: nat)
    requires d < |v|
    ensures v == v[..d] + [v[d]] + v[d + 1..]
  {
  }

  lemma SliceSizeSwapFront(a: seq<int>, b: seq<int>, c: seq<int>)
    ensures SliceSize(a + b + c) == SliceSize(b + a + c)
  {
    SliceSizeSwap(a, b);
    SliceSizeConcat(a + b, c);
    SliceSizeConcat(b + a, c);
  }

  lemma SliceSizeSwap(a: seq<int>, b: seq<int>)
    ensures SliceSize(a + b) == SliceSize(b + a)
  {
    SliceSizeConcat(a, b);
    SliceSizeConcat(b, a);
    assert SliceSize(a) * SliceSize(b) == SliceSize(b) * SliceSize(a);
  }

  /** With every extent finite, the slice size is the plain product. */
  lemma {:induction false} SliceSizeOfFinite(domain: seq<int>)
    requires forall i :: 0 <= i < |domain| ==> domain[i] >= 0
    ensures SliceSize(domain) == Product(domain)
    decreases |domain|
  {
    if |domain| > 0 {
      var n := |domain|;
      SliceSizeOfFinite(domain[..n - 1]);
      ProductSnoc(domain[..n - 1], domain[n - 1]);
      assert domain[..n - 1] + [domain[n - 1]] == domain;
    }
  }

  // ---------------------------------------------------------------------------
  // Signed remainder: LLVM srem is the truncating remainder TruncRem.

  lemma SRemProperties(a: int, b: int)
    requires b != 0
    ensures 0 <= a ==> 0 <= TruncRem(a, b) < Magnitude(b)
    ensures 0 <= a && 0 < b ==> TruncRem(a, b) == a % b
    ensures a < 0 ==> -Magnitude(b) < TruncRem(a, b) <= 0
  {
  }

  /** Two non-negative dividends closer than the divisor share a remainder only if they are equal. */
  lemma SRemNoAlias(a: int, b: int, m: int)
    requires 0 < m && 0 <= a && 0 <= b && -m < a - b < m
    requires TruncRem(a, m) == TruncRem(b, m)
    ensures a == b
  {
    assert a == m * (a / m) + a % m;
    assert b == m * (b / m) + b % m;
    assert a - b == (a / m - b / m) * m;
    if a / m - b / m >= 1 {
      MulMonotone(1, a / m - b / m, m);
    } else if a / m - b / m <= -1 {
      MulMonotone(a / m - b / m, -1, m);
    }
  }

  // ---------------------------------------------------------------------------
  // Buffer and input offsets.

  /** What flat_index and transpose assert about a statement accessed at an index of length n. */
  ghost predicate Flattenable(s: Statement, n: nat)
  {
    && 0 <= s.dimension < n
    && |s.domain| == n
    && forall i :: 1 <= i < n ==> Transposed(s.domain, s.dimension)[i] >= 0
  }

  /** Additionally, generate_buffer_access asserts a non-negative buffer size. */
  ghost predicate Addressable(s: Statement, n: nat)
  {
    Flattenable(s, n) && s.bufferSize >= 0
  }

  /** The flat offset of `index` in the statement's storage order. */
  function StorageFlat(s: Statement, index: seq<int>): int
    requires Flattenable(s, |index|)
  {
    Flat(Transposed(index, s.dimension), Transposed(s.domain, s.dimension))
  }

  /** The element a buffer access reaches:
      (flat + phase·slice) srem (slice·bufferSize); None when the divisor is zero
      (srem by zero is undefined in LLVM IR). */
  function BufferOffset(s: Statement, index: seq<int>, phase: int): Option<int>
    requires Addressable(s, |index|)
  {
    var slice := SliceSize(s.domain);
    var size := slice * s.bufferSize;
    if size == 0 then None else Some(TruncRem(StorageFlat(s, index) + phase * slice, size))
  }

  /** The offset is defined exactly when the slice and the buffer are both non-empty, and
      for a non-negative dividend it lies inside the buffer. */
  lemma BufferOffsetInRange(s: Statement, index: seq<int>, phase: int)
    requires Addressable(s, |index|)
    ensures BufferOffset(s, index, phase).Some? <==> SliceSize(s.domain) != 0 && s.bufferSize != 0
    ensures BufferOffset(s, index, phase).Some? && StorageFlat(s, index) + phase * SliceSize(s.domain) >= 0
            ==> 0 <= BufferOffset(s, index, phase).value < Magnitude(SliceSize(s.domain) * s.bufferSize)
  {
    var size := SliceSize(s.domain) * s.bufferSize;
    if size != 0 {
      SRemProperties(StorageFlat(s, index) + phase * SliceSize(s.domain), size);
    }
  }

  /** A point of the statement's box whose every finite coordinate is within its extent
      and whose storage coordinate is non-negative. */
  ghost predicate InStorageBox(s: Statement, p: seq<int>)
  {
    && |p| == |s.domain|
    && 0 <= s.dimension < |p|
    && p[s.dimension] >= 0
    && forall i :: 0 <= i < |p| && i != s.dimension ==> 0 <= p[i] < s.domain[i]
  }

  lemma TransposedInBox(s: Statement, p: seq<int>)
    requires InStorageBox(s, p)
    ensures InBox(Transposed(p, s.dimension), Transposed(s.domain, s.dimension))
  {
    var d := s.dimension;
    TransposedElements(p, d);
    TransposedElements(s.domain, d);
    forall i | 1 <= i < |p|
      ensures 0 <= Transposed(p, d)[i] < Transposed(s.domain, d)[i]
    {
      if i <= d {
        assert Transposed(p, d)[i] == p[i - 1] && Transposed(s.domain, d)[i] == s.domain[i - 1];
      } else {
        assert Transposed(p, d)[i] == p[i] && Transposed(s.domain, d)[i] == s.domain[i];
      }
    }
  }

  /** With an unbounded storage dimension, the slice size is the stride of the storage coordinate. */
  lemma StreamSliceSize(s: Statement)
    requires 0 <= s.dimension < |s.domain| && s.domain[s.dimension] < 0
    requires forall i :: 0 <= i < |s.domain| && i != s.dimension ==> s.domain[i] >= 0
    ensures SliceSize(s.domain) == Product(Transposed(s.domain, s.dimension)[1..])
  {
    var d := s.dimension;
    var t := Transposed(s.domain, d);
    TransposedElements(s.domain, d);
    SliceSizeTransposed(s.domain, d);
    assert t == [t[0]] + t[1..];
    SliceSizeConcat([t[0]], t[1..]);
    assert SliceSize([t[0]]) == 1 by {
      assert [t[0]][..0] == [];
    }
    forall i | 0 <= i < |t[1..]|
      ensures t[1..][i] >= 0
    {
      var k := i + 1;
      if k <= d {
        assert t[k] == s.domain[k - 1];
      } else {
        assert t[k] == s.domain[k];
      }
    }
    SliceSizeOfFinite(t[1..]);
  }

  /** Offsets of two points whose storage coordinates are fewer than bufferSize steps apart
      differ by less than the buffer's element count. */
  lemma CloseOffsets(fp: int, fq: int, p0: int, q0: int, slice: int, bufferSize: int, phase: int)
    requires p0 * slice <= fp < (p0 + 1) * slice
    requires q0 * slice <= fq < (q0 + 1) * slice
    requires 0 <= p0 && 0 <= q0 && 0 <= phase && 0 < bufferSize && -bufferSize < p0 - q0 < bufferSize
    ensures 0 < slice && 0 < slice * bufferSize
    ensures 0 <= fp + phase * slice && 0 <= fq + phase * slice
    ensures -(slice * bufferSize) < fp - fq < slice * bufferSize
  {
    assert (p0 + 1) * slice == p0 * slice + slice;
    assert (q0 + 1) * slice == q0 * slice + slice;
    MulMonotone(0, p0, slice);
    MulMonotone(0, q0, slice);
    MulMonotone(0, phase, slice);
    assert fp - fq < (p0 - q0 + 1) * slice;
    assert fq - fp < (q0 - p0 + 1) * slice;
    MulMonotone(p0 - q0 + 1, bufferSize, slice);
    MulMonotone(q0 - p0 + 1, bufferSize, slice);
    MulMonotone(1, bufferSize, slice);
  }

  /** The circular buffer never aliases: two points of an unbounded stream whose storage
      coordinates are fewer than bufferSize steps apart reach the same element only if
      they are the same point. */
  lemma BufferSlotsDistinct(s: Statement, p: seq<int>, q: seq<int>, phase: int)
    requires Addressable(s, |p|) && |q| == |p|
    requires s.domain[s.dimension] < 0 && s.bufferSize > 0 && phase >= 0
    requires InStorageBox(s, p) && InStorageBox(s, q)
    requires -s.bufferSize < p[s.dimension] - q[s.dimension] < s.bufferSize
    requires BufferOffset(s, p, phase) == BufferOffset(s, q, phase)
    ensures p == q
  {
    var d := s.dimension;
    var td := Transposed(s.domain, d);
    SameOffsetSameFlat(s, p, q, phase);
    StreamGeometry(s, p);
    StreamGeometry(s, q);
    UnflattenFlat(Transposed(p, d), td);
    UnflattenFlat(Transposed(q, d), td);
    TransposedInjective(p, q, d);
  }

  lemma SameOffsetSameFlat(s: Statement, p: seq<int>, q: seq<int>, phase: int)
    requires Addressable(s, |p|) && |q| == |p|
    requires s.domain[s.dimension] < 0 && s.bufferSize > 0 && phase >= 0
    requires InStorageBox(s, p) && InStorageBox(s, q)
    requires -s.bufferSize < p[s.dimension] - q[s.dimension] < s.bufferSize
    requires BufferOffset(s, p, phase) == BufferOffset(s, q, phase)
    ensures StorageFlat(s, p) == StorageFlat(s, q)
  {
    var d := s.dimension;
    var td := Transposed(s.domain, d);
    var tp, tq := Transposed(p, d), Transposed(q, d);
    StreamGeometry(s, p);
    StreamGeometry(s, q);
    var slice := SliceSize(s.domain);
    FlatBounds(tp, td);
    FlatBounds(tq, td);
    var fp, fq := Flat(tp, td), Flat(tq, td);
    CloseOffsets(fp, fq, p[d], q[d], slice, s.bufferSize, phase);
    var size := slice * s.bufferSize;
    assert TruncRem(fp + phase * slice, size) == TruncRem(fq + phase * slice, size);
    SRemNoAlias(fp + phase * slice, fq + phase * slice, size);
  }

  /** A point of a stream's box, moved to storage order, lies in the box of the
      transposed extents, and the slice is the product of the extents after the first. */
  lemma StreamGeometry(s: Statement, p: seq<int>)
    requires InStorageBox(s, p) && s.domain[s.dimension] < 0
    ensures InBox(Transposed(p, s.dimension), Transposed(s.domain, s.dimension))
    ensures Transposed(p, s.dimension)[0] == p[s.dimension]
    ensures SliceSize(s.domain) == Product(Transposed(s.domain, s.dimension)[1..])
  {
    TransposedInBox(s, p);
    TransposedElements(p, s.dimension);
    forall i | 0 <= i < |s.domain| && i != s.dimension
      ensures s.domain[i] >= 0
    {
      assert 0 <= p[i] < s.domain[i];
    }
    StreamSliceSize(s);
  }

  // ---------------------------------------------------------------------------
  // The IR a statement instance emits.

  datatype FloatOp = FAdd | FSub | FMul | FDiv

  /** A double constant: an integer constant converted to double, or a double literal. */
  datatype DoubleConst = FromInt(i: int) | Literal(lit: RealLiteral)

  /** The element an emitted GEP points at. A buffer element is named by the buffer
      descriptor the IR indexes and the element offset (None when the IR's behaviour is
      undefined: a descriptor outside the buffer array, or srem by zero). */
  datatype Address =
    | BufferSlot(descriptor: int, slot: Option<int>)
    | InputSlot(input: int, element: int)

  datatype Val =
    | Arith(op: FloatOp, lhs: Val, rhs: Val)
    | Load(from: Address)
    | Const(c: DoubleConst)

  datatype Instr = Store(value: Val, to: Address)

  predicate IsArithmetic(op: PrimOp)
  {
    op.Add? || op.Subtract? || op.Multiply? || op.Divide?
  }

  const UnexpectedExpression := "Unexpected expression type."

  /** The expressions the LLVM backend can lower: the four arithmetic intrinsics over
      lowerable operands, reads of other statements, and int and double constants. */
  predicate Supported(e: Expr)
  {
    match e
    case Primitive(_, op, args) => IsArithmetic(op) && forall a :: a in args ==> Supported(a)
    case StmtAccess(_, _, _) => true
    case IntConst(_, _) => true
    case RealConst(_, _) => true
    case _ => false
  }

  /** The generator: the statements it was built for, the run-time phases of the buffer
      descriptors, and the insertion state of its IR builder (the instructions of each
      basic block and the current insertion block). */
  class Generator {
    const statements: seq<Statement>
    const phases: seq<int>
    var blocks: map<nat, seq<Instr>>
    var insertBlock: Option<nat>

    constructor(statements: seq<Statement>, phases: seq<int>)
      ensures this.statements == statements && this.phases == phases
      ensures blocks == map[] && insertBlock == None
    {
      this.statements := statements;
      this.phases := phases;
      blocks := map[];
      insertBlock := None;
    }

    /** statement_index as written: std::distance(stmt_ref, begin) is begin - stmt_ref,
        the negated position of the statement. */
    function StatementIndexAsWritten(p: nat): (d: int)
      requires p < |statements|
      ensures d <= 0 && (d == 0 <==> p == 0)
    {
      0 - p
    }

    /** The descriptor index as evidently intended: the statement's position. */
    function StatementIndex(p: nat): (d: nat)
      requires p < |statements|
      ensures d < |statements| && statements[d] == statements[p]
    {
      p
    }

    /** The phase the IR loads from buffer descriptor d, if d names one. */
    function PhaseAt(d: int): Option<int>
    {
      if 0 <= d < |phases| then Some(phases[d]) else None
    }

    /** The element generate_buffer_access points at for statement p at `index`. */
    function BufferAddress(p: nat, index: seq<int>): Address
      requires p < |statements| && Addressable(statements[p], |index|)
    {
      var d := StatementIndex(p);
      BufferSlot(d, match PhaseAt(d)
                    case None => None
                    case Some(phase) => BufferOffset(statements[p], index, phase))
    }

    /** As written, every statement but the first names a descriptor outside the buffer
        array, so its phase load is undefined. */
    lemma AsWrittenIndexMissesDescriptors(p: nat)
      requires p < |statements|
      ensures p > 0 ==> PhaseAt(StatementIndexAsWritten(p)) == None
      ensures p == 0 ==> StatementIndexAsWritten(p) == StatementIndex(p)
    {
    }

    /** With the corrected index, each statement with a descriptor reads its own phase,
        and distinct statements read distinct descriptors. */
    lemma StatementIndexReadsOwnPhase(p: nat, q: nat)
      requires p < |statements| && q < |statements|
      ensures p < |phases| ==> PhaseAt(StatementIndex(p)) == Some(phases[p])
      ensures p != q ==> StatementIndex(p) != StatementIndex(q)
    {
    }

    /** Buffer accesses never alias: two accesses reach the same element only when they
        are accesses of the same statement (each statement has a descriptor of its own)
        and, for two points of an unbounded stream fewer than bufferSize steps apart in
        its storage dimension, only at the same point. */
    lemma BufferAddressInjective(p: nat, q: nat, x: seq<int>, y: seq<int>)
      requires p < |statements| && q < |statements| && p < |phases|
      requires Addressable(statements[p], |x|) && Addressable(statements[q], |y|)
      requires BufferAddress(p, x) == BufferAddress(q, y)
      ensures p == q
      ensures var s := statements[p];
              && |x| == |y| && s.domain[s.dimension] < 0 && s.bufferSize > 0 && phases[p] >= 0
              && InStorageBox(s, x) && InStorageBox(s, y)
              && -s.bufferSize < x[s.dimension] - y[s.dimension] < s.bufferSize
              ==> x == y
    {
      StatementIndexReadsOwnPhase(p, q);
      var s := statements[p];
      if |x| == |y| && s.domain[s.dimension] < 0 && s.bufferSize > 0 && phases[p] >= 0
         && InStorageBox(s, x) && InStorageBox(s, y)
         && -s.bufferSize < x[s.dimension] - y[s.dimension] < s.bufferSize
      {
        assert BufferOffset(s, x, phases[p]) == BufferOffset(s, y, phases[p]);
        BufferSlotsDistinct(s, x, y, phases[p]);
      }
    }

    /** The element generate_input_access points at: the flat index itself, with no
        phase and no remainder. */
    function InputAddress(p: nat, index: seq<int>): Address
      requires p < |statements| && Flattenable(statements[p], |index|)
      requires statements[p].expr.Some? && statements[p].expr.value.InputAccess?
    {
      InputSlot(statements[p].expr.value.input, StorageFlat(statements[p], index))
    }

    /** What the lowering asserts or indexes without checking: two operands for an
        arithmetic intrinsic, and for a read a valid pattern over `n` coordinates whose
        image addresses the target. */
    ghost predicate WellFormed(e: Expr, n: nat)
    {
      match e
      case Primitive(_, op, args) =>
        (IsArithmetic(op) ==> |args| >= 2) && forall a :: a in args ==> WellFormed(a, n)
      case StmtAccess(_, t, m) =>
        t < |statements| && m.Valid() && m.inputDim == n && Addressable(statements[t], m.outputDim)
      case _ => true
    }

    /** The value generate_expression emits for `e` at `index`, or the exception it throws. */
    function ExprValue(e: Expr, index: seq<int>): Result<Val>
      requires WellFormed(e, |index|)
      decreases e
    {
      match e
      case Primitive(_, op, args) =>
        var operands := OperandValues(args, index);
        if operands.Err? then Err(operands.msg) else IntrinsicValue(op, operands.value)
      case StmtAccess(_, t, m) => Ok(Load(BufferAddress(t, AffineImage(m, index))))
      case IntConst(_, v) => Ok(Const(FromInt(v)))
      case RealConst(_, r) => Ok(Const(Literal(r)))
      case _ => Err(UnexpectedExpression)
    }

    /** The operands lowered left to right; the first exception wins. */
    function OperandValues(args: seq<Expr>, index: seq<int>): (r: Result<seq<Val>>)
      requires forall a :: a in args ==> WellFormed(a, |index|)
      ensures r.Ok? ==> |r.value| == |args|
      decreases args
    {
      if |args| == 0 then Ok([])
      else
        var init := OperandValues(args[..|args| - 1], index);
        if init.Err? then init
        else
          var last := ExprValue(args[|args| - 1], index);
          if last.Err? then Err(last.msg) else Ok(init.value + [last.value])
    }

    static function IntrinsicValue(op: PrimOp, operands: seq<Val>): Result<Val>
      requires IsArithmetic(op) ==> |operands| >= 2
    {
      match op
      case Add => Ok(Arith(FAdd, operands[0], operands[1]))
      case Subtract => Ok(Arith(FSub, operands[0], operands[1]))
      case Multiply => Ok(Arith(FMul, operands[0], operands[1]))
      case Divide => Ok(Arith(FDiv, operands[0], operands[1]))
      case _ => Err(UnexpectedExpression)
    }

    lemma {:induction false} OperandValuesOkIff(args: seq<Expr>, index: seq<int>)
      requires forall a :: a in args ==> WellFormed(a, |index|)
      ensures OperandValues(args, index).Ok? <==> forall a :: a in args ==> Supported(a)
      decreases args
    {
      if |args| > 0 {
        var init, last := args[..|args| - 1], args[|args| - 1];
        assert args == init + [last];
        OperandValuesOkIff(init, index);
        ExprValueOkIff(last, index);
      }
    }

    /** Lowering succeeds exactly on the supported expressions. */
    lemma {:induction false} ExprValueOkIff(e: Expr, index: seq<int>)
      requires WellFormed(e, |index|)
      ensures ExprValue(e, index).Ok? <==> Supported(e)
      decreases e
    {
      match e
      case Primitive(_, op, args) =>
        OperandValuesOkIff(args, index);
      case _ =>
    }

    lemma {:induction false} OperandErrorPersists(args: seq<Expr>, index: seq<int>, j: nat, k: nat)
      requires j <= k <= |args|
      requires forall a :: a in args ==> WellFormed(a, |index|)
      requires OperandValues(args[..j], index).Err?
      ensures OperandValues(args[..k], index) == OperandValues(args[..j], index)
      decreases k
    {
      if k > j {
        assert args[..k][..k - 1] == args[..k - 1];
        OperandErrorPersists(args, index, j, k - 1);
      }
    }

    /** What statement p stores for the period-less `index`, or the exception thrown. */
    function StatementStore(p: nat, index: seq<int>): Result<Instr>
      requires p < |statements| && StatementReady(p, |index|)
      requires statements[p].expr.Some?
    {
      var s := statements[p];
      var value := if s.expr.value.InputAccess? then Ok(Load(InputAddress(p, index)))
                   else ExprValue(s.expr.value, index);
      if value.Err? then Err(value.msg) else Ok(Store(value.value, BufferAddress(p, index)))
    }

    /** What generate_statement demands of statement p for an index of length n
        (after the period coordinate is dropped). */
    ghost predicate StatementReady(p: nat, n: nat)
      requires p < |statements|
    {
      var s := statements[p];
      s.expr.Some? ==> Addressable(s, n) && (!s.expr.value.InputAccess? ==> WellFormed(s.expr.value, n))
    }

    /** A statement stores into its own buffer element at the index it was visited with;
        an input statement stores what it loads at the flat index of the input. */
    lemma StatementStoreTarget(p: nat, index: seq<int>)
      requires p < |statements| && StatementReady(p, |index|) && statements[p].expr.Some?
      ensures StatementStore(p, index).Ok? ==> StatementStore(p, index).value.to == BufferAddress(p, index)
      ensures statements[p].expr.value.InputAccess? ==>
                StatementStore(p, index) == Ok(Store(Load(InputSlot(statements[p].expr.value.input,
                                                                    StorageFlat(statements[p], index))),
                                                     BufferAddress(p, index)))
      ensures !statements[p].expr.value.InputAccess? ==>
                (StatementStore(p, index).Ok? <==> Supported(statements[p].expr.value))
    {
      if !statements[p].expr.value.InputAccess? {
        ExprValueOkIff(statements[p].expr.value, index);
      }
    }

    static function BlockCode(blocks: map<nat, seq<Instr>>, b: nat): seq<Instr>
    {
      if b in blocks then blocks[b] else []
    }

    // -------------------------------------------------------------------------
    // The generator's methods.

    /** transpose: move element d to the front, in place. */
    static method Transpose<T>(a: array<T>, d: nat)
      requires d < a.Length
      modifies a
      ensures a[..] == Transposed(old(a[..]), d)
    {
      var tmp := a[d];
      var i := d;
      while i > 0
        invariant 0 <= i <= d
        invariant forall k :: 0 <= k <= i ==> a[k] == old(a[k])
        invariant forall k :: i < k <= d ==> a[k] == old(a[k - 1])
        invariant forall k :: d < k < a.Length ==> a[k] == old(a[k])
      {
        a[i] := a[i - 1];
        i := i - 1;
      }
      a[0] := tmp;
      TransposedElements(old(a[..]), d);
    }

    /** flat_index: the Horner loop over the (transposed) index and domain. */
    static method FlatIndex(index: seq<int>, domain: seq<int>) returns (flat: int)
      requires 0 < |index| && |domain| == |index|
      requires forall i :: 1 <= i < |domain| ==> domain[i] >= 0
      ensures flat == Flat(index, domain)
    {
      flat := index[0];
      var i := 1;
      while i < |index|
        invariant 1 <= i <= |index|
        invariant flat == Flat(index[..i], domain[..i])
      {
        var size := domain[i];
        flat := flat * size;
        flat := flat + index[i];
        i := i + 1;
        assert index[..i][..i - 1] == index[..i - 1];
        assert domain[..i][..i - 1] == domain[..i - 1];
      }
      assert index[..i] == index && domain[..i] == domain;
    }

    /** The slice-size loop of generate_buffer_access. */
    static method FiniteSliceSize(domain: seq<int>) returns (size: int)
      ensures size == SliceSize(domain)
    {
      size := 1;
      var dim := 0;
      while dim < |domain|
        invariant 0 <= dim <= |domain|
        invariant size == SliceSize(domain[..dim])
      {
        var extent := domain[dim];
        if extent >= 0 {
          size := size * extent;
        }
        dim := dim + 1;
        assert domain[..dim][..dim - 1] == domain[..dim - 1];
      }
      assert domain[..dim] == domain;
    }

    /** mapped_index: apply the access pattern, one accumulated sum per output dimension. */
    static method MappedIndex(index: seq<int>, m: Mapping) returns (target: seq<int>)
      requires m.Valid() && |index| == m.inputDim
      ensures target == AffineImage(m, index)
    {
      target := [];
      var o := 0;
      while o < m.outputDim
        invariant 0 <= o <= m.outputDim
        invariant |target| == o
        invariant forall k :: 0 <= k < o ==> target[k] == m.Constant(k) + AffineSum(m, index, k, m.inputDim)
      {
        var value := m.Constant(o);
        var i := 0;
        while i < m.inputDim
          invariant 0 <= i <= m.inputDim
          invariant value == m.Constant(o) + AffineSum(m, index, o, i)
        {
          var term := index[i] * m.Coefficient(i, o);
          value := value + term;
          i := i + 1;
        }
        target := target + [value];
        o := o + 1;
      }
    }

    static method CopyToArray(s: seq<int>) returns (a: array<int>)
      ensures fresh(a) && a[..] == s
    {
      a := new int[|s|](i requires 0 <= i < |s| => s[i]);
    }

    /** The transpose-then-flatten sequence both access generators start with. */
    static method TransposedFlatIndex(stmt: Statement, index: seq<int>) returns (flat: int)
      requires Flattenable(stmt, |index|)
      ensures flat == StorageFlat(stmt, index)
    {
      var d := stmt.dimension;
      var theIndex := CopyToArray(index);
      var theDomain := CopyToArray(stmt.domain);
      Transpose(theIndex, d);
      Transpose(theDomain, d);
      TransposedElements(stmt.domain, d);
      TransposedElements(index, d);
      assert theIndex[..] == Transposed(index, d);
      assert theDomain[..] == Transposed(stmt.domain, d);
      flat := FlatIndex(theIndex[..], theDomain[..]);
    }

    /** generate_buffer_access: the element of statement p's buffer that `index` reaches. */
    method GenerateBufferAccess(p: nat, index: seq<int>) returns (addr: Address)
      requires p < |statements| && Addressable(statements[p], |index|)
      ensures addr == BufferAddress(p, index)
    {
      var stmt := statements[p];
      var descriptor := StatementIndex(p);
      var sliceSize := FiniteSliceSize(stmt.domain);
      var bufferSize := sliceSize * stmt.bufferSize;
      var flat := TransposedFlatIndex(stmt, index);
      var phase := PhaseAt(descriptor);
      var slot: Option<int>;
      if phase.None? || bufferSize == 0 {
        slot := None;
      } else {
        slot := Some(TruncRem(flat + phase.value * sliceSize, bufferSize));
      }
      addr := BufferSlot(descriptor, slot);
    }

    /** generate_input_access: the element of the input array that `index` reaches. */
    method GenerateInputAccess(p: nat, index: seq<int>) returns (addr: Address)
      requires p < |statements| && Flattenable(statements[p], |index|)
      requires statements[p].expr.Some? && statements[p].expr.value.InputAccess?
      ensures addr == InputAddress(p, index)
    {
      var stmt := statements[p];
      var inputNum := stmt.expr.value.input;
      var flat := TransposedFlatIndex(stmt, index);
      addr := InputSlot(inputNum, flat);
    }

    /** generate_expression. */
    method GenerateExpression(e: Expr, index: seq<int>) returns (r: Result<Val>)
      requires WellFormed(e, |index|)
      ensures r == ExprValue(e, index)
      decreases e
    {
      match e {
        case Primitive(ty, op, args) =>
          r := GenerateIntrinsic(op, args, index);
        case StmtAccess(_, t, m) =>
          var targetIndex := MappedIndex(index, m);
          var address := GenerateBufferAccess(t, targetIndex);
          r := Ok(Load(address));
        case IntConst(_, v) =>
          r := Ok(Const(FromInt(v)));
        case RealConst(_, v) =>
          r := Ok(Const(Literal(v)));
        case _ =>
          r := Err(UnexpectedExpression);
      }
    }

    /** generate_intrinsic: lower every operand, then pick the instruction. */
    method GenerateIntrinsic(op: PrimOp, args: seq<Expr>, index: seq<int>) returns (r: Result<Val>)
      requires forall a :: a in args ==> WellFormed(a, |index|)
      requires IsArithmetic(op) ==> |args| >= 2
      ensures r == (var operands := OperandValues(args, index);
                    if operands.Err? then Err(operands.msg) else IntrinsicValue(op, operands.value))
      decreases args
    {
      var operands: seq<Val> := [];
      var i := 0;
      while i < |args|
        invariant 0 <= i <= |args|
        invariant OperandValues(args[..i], index) == Ok(operands)
      {
        var v := GenerateExpression(args[i], index);
        assert args[..i + 1][..i] == args[..i];
        if v.Err? {
          OperandErrorPersists(args, index, i + 1, |args|);
          assert args[..|args|] == args;
          return Err(v.msg);
        }
        operands := operands + [v.value];
        i := i + 1;
      }
      assert args[..i] == args;
      r := IntrinsicValue(op, operands);
    }

    /** generate_statement (by statement): nothing for a statement without expression;
        otherwise drop the period coordinate, set the insertion block and store the
        statement's value at its own buffer element. */
    method GenerateStatement(p: nat, rawIndex: seq<int>, block: nat) returns (outcome: Outcome)
      requires p < |statements|
      requires statements[p].expr.Some? ==> 0 < |rawIndex| && StatementReady(p, |rawIndex| - 1)
      modifies this
      ensures statements[p].expr.None? ==>
                outcome == Pass && blocks == old(blocks) && insertBlock == old(insertBlock)
      ensures statements[p].expr.Some? ==>
                insertBlock == Some(block) &&
                match StatementStore(p, rawIndex[1..])
                case Ok(instr) =>
                  outcome == Pass && blocks == old(blocks)[block := BlockCode(old(blocks), block) + [instr]]
                case Err(msg) => outcome == Fail(msg) && blocks == old(blocks)
    {
      var stmt := statements[p];
      if stmt.expr.None? {
        return Pass;
      }
      var index := rawIndex[1..];
      insertBlock := Some(block);
      var value: Val;
      if stmt.expr.value.InputAccess? {
        var address := GenerateInputAccess(p, index);
        value := Load(address);
      } else {
        var v := GenerateExpression(stmt.expr.value, index);
        if v.Err? {
          return Fail(v.msg);
        }
        value := v.value;
      }
      var dst := GenerateBufferAccess(p, index);
      blocks := blocks[block := BlockCode(blocks, block) + [Store(value, dst)]];
      outcome := Pass;
    }

    /** generate_statement (by name). */
    method GenerateNamedStatement(name: string, rawIndex: seq<int>, block: nat) returns (outcome: Outcome)
      requires exists i :: 0 <= i < |statements| && statements[i].name == name
      requires forall i ::
                 (0 <= i < |statements| && statements[i].name == name &&
                  (forall j :: 0 <= j < i ==> statements[j].name != name)) ==>
                 (statements[i].expr.Some? ==> 0 < |rawIndex| && StatementReady(i, |rawIndex| - 1))
      modifies this
      ensures exists p :: 0 <= p < |statements| && statements[p].name == name &&
                (forall j :: 0 <= j < p ==> statements[j].name != name) &&
                (statements[p].expr.None? ==> outcome == Pass && blocks == old(blocks)) &&
                (statements[p].expr.Some? ==>
                  (insertBlock == Some(block) &&
                   match StatementStore(p, rawIndex[1..])
                   case Ok(instr) =>
                     outcome == Pass && blocks == old(blocks)[block := BlockCode(old(blocks), block) + [instr]]
                   case Err(msg) => outcome == Fail(msg) && blocks == old(blocks)))
    {
      var p := FindStatement(statements, name);
      outcome := GenerateStatement(p, rawIndex, block);
    }
  }
}
