/** The C++ front end of trusimd.hpp, as functions on the current session:
    the `var` handle and its operators, `arg(i)`, and the conversion of a
    C entry point's -1 into an exception. */
module FrontSpec {
  import opened TypeDesc
  import opened Decimal
  import opened TypeText
  import opened Emitter
  import opened Ops
  import opened ErrorCodes
  import KS = KernelSpec

  /** What the front end throws: trusimd::runtime_error carrying a code
      (TRUSIMD_THROW), or the bare int trusimd_binop throws. */
  datatype Exception = RuntimeError(code: int) | IntThrown(code: int)

  /** A front-end call either completes with a value or throws. */
  datatype Outcome<T> = Done(value: T) | Thrown(ex: Exception)

  /** class var (trusimd.hpp:106-167): a variable id, and the id of the
      index when the handle stands for an element `p[i]`. */
  datatype Var = Var(id: int, indexId: int)

  /** The index id of a handle that is not indexed. */
  const Unindexed: int := -1

  /** The pointer descriptor the vector_add kernel takes (trusimd.hpp:101). */
  const Float32Ptr: Type := Type(SCALAR, FLOAT, 32, 1)

  /** What the front end reads and writes: the current session and
      trusimd_errno. */
  datatype World = World(s: KS.Session, errno: int)

  // ---------------------------------------------------------------------
  // TRUSIMD_THROW_IF_ERROR_INT

  /** The int a C entry point returns: its value, or -1 on failure. */
  function CReturn(r: Result<int>): int {
    match r
    case Ok(v) => v
    case Err(_) => -1
  }

  /** trusimd_errno after a C entry point: the failure's code, or what it
      was. */
  function ErrnoAfter(r: Result<int>, errno: int): int {
    match r
    case Ok(_) => errno
    case Err(c) => c
  }

  /** TRUSIMD_THROW_IF_ERROR_INT (trusimd.hpp:53-58): -1 throws the
      current trusimd_errno, any other value passes. */
  function ThrowIfErrorInt(ret: int, errno: int): (o: Outcome<int>)
    ensures o.Thrown? <==> ret == -1
    ensures o.Done? ==> o.value == ret
  {
    if ret == -1 then Thrown(RuntimeError(errno)) else Done(ret)
  }

  /** A wrapped call to a C entry point: the session it leaves, trusimd_errno
      as the entry point leaves it, and what the wrapper makes of its
      return value. */
  function Call(w: World, r: (KS.Session, Result<int>)): (World, Outcome<int>) {
    var errno := ErrnoAfter(r.1, w.errno);
    (World(r.0, errno), ThrowIfErrorInt(CReturn(r.1), errno))
  }

  /** The wrapper loses nothing: a success that is not -1 comes through as
      its value with trusimd_errno untouched, and a failure becomes an
      exception carrying exactly the code the entry point stored. */
  lemma CallOutcome(w: World, r: (KS.Session, Result<int>))
    requires r.1.Ok? ==> r.1.value != -1
    ensures r.1.Ok? ==> Call(w, r) == (World(r.0, w.errno), Done(r.1.value))
    ensures r.1.Err? ==> Call(w, r) == (World(r.0, r.1.code), Thrown(RuntimeError(r.1.code)))
  {
  }

  /** A failure code equal to -1 is the one case the -1 convention cannot
      tell from success: a success returning -1 throws a stale errno. */
  lemma CallAmbiguousAtMinusOne(w: World, s: KS.Session)
    ensures Call(w, (s, Ok(-1))) == (World(s, w.errno), Thrown(RuntimeError(w.errno)))
  {
  }

  // ---------------------------------------------------------------------
  // What the builders keep

  /** A handle names variables of the session. */
  predicate Valid(s: KS.Session, v: Var) {
    0 <= v.id < |s.vars| && (v.indexId == Unindexed || 0 <= v.indexId < |s.vars|)
  }

  /** The variable table grows through a chain of calls. */
  lemma Grows(a: seq<Type>, b: seq<Type>, c: seq<Type>)
    requires a <= b && b <= c
    ensures a <= c
  {
  }

  /** trusimd_load keeps the session well formed, only grows the variable
      table, and a success is an id of it. */
  lemma LoadKeeps(s: KS.Session, ptr: int, off: int)
    requires KS.Wf(s) && 0 <= ptr < |s.vars| && 0 <= off < |s.vars|
    ensures var (r, res) := KS.Load(s, ptr, off);
      KS.Wf(r) && s.vars <= r.vars && (res.Ok? ==> 0 <= res.value < |r.vars|)
  {
    KS.LoadRejects(s, ptr, off);
    if IsInt(s.vars[off]) {
      KS.LoadSpec(s, ptr, off);
    }
  }

  /** trusimd_store keeps the session well formed and only grows the
      variable table; a success returns 0. */
  lemma StoreKeeps(s: KS.Session, ptr: int, off: int, v: int)
    requires KS.Wf(s) && 0 <= ptr < |s.vars| && 0 <= off < |s.vars| && 0 <= v < |s.vars|
    ensures var (r, res) := KS.Store(s, ptr, off, v);
      KS.Wf(r) && s.vars <= r.vars && (res.Ok? ==> res.value == 0)
  {
    KS.StoreRejects(s, ptr, off, v);
    if KS.StoreOk(s, ptr, off, v) {
      KS.StoreSpec(s, ptr, off, v);
    }
  }

  /** trusimd_assign keeps the session well formed and the variable table
      as it is; a success returns 0. */
  lemma AssignKeeps(s: KS.Session, l: int, r: int)
    requires KS.Wf(s) && 0 <= l < |s.vars| && 0 <= r < |s.vars|
    ensures var (s1, res) := KS.Assign(s, l, r);
      KS.Wf(s1) && s.vars <= s1.vars && (res.Ok? ==> res.value == 0)
  {
    KS.AssignRejects(s, l, r);
    if s.vars[l] == s.vars[r] {
      KS.AssignSpec(s, l, r);
    }
  }

  /** trusimd_binop keeps the session well formed, only grows the variable
      table, and a success is an id of it. */
  lemma BinOpKeeps(s: KS.Session, op: BinOp, l: int, r: int)
    requires KS.Wf(s) && 0 <= l < |s.vars| && 0 <= r < |s.vars|
    ensures var (s1, res) := KS.BinOp(s, op, l, r);
      KS.Wf(s1) && s.vars <= s1.vars && (res.Ok? ==> 0 <= res.value < |s1.vars|)
  {
    KS.BinOpRejects(s, op, l, r);
    if TypeOk(op, s.vars[l], s.vars[r]) {
      KS.BinOpSpec(s, op, l, r);
    }
  }

  // ---------------------------------------------------------------------
  // class var

  /** var(t) (trusimd.hpp:112-114): a fresh, unindexed user variable. */
  function MakeVar(w: World, t: Type): (r: (World, Outcome<Var>))
    requires KS.Wf(w.s)
    ensures KS.Wf(r.0.s) && w.s.vars <= r.0.s.vars
    ensures r.1.Done? && Valid(r.0.s, r.1.value) && r.1.value.indexId == Unindexed
  {
    KS.NewVarSpec(w.s, t);
    var (s1, nv) := KS.NewVar(w.s, t);
    var o := ThrowIfErrorInt(nv, w.errno);
    (World(s1, w.errno), match o case Thrown(e) => Thrown(e) case Done(id) => Done(Var(id, Unindexed)))
  }

  /** var::operator() (trusimd.hpp:121-129): the id of an unindexed
      handle, or the result of one trusimd_load of the element. */
  function Eval(w: World, v: Var): (r: (World, Outcome<int>))
    requires KS.Wf(w.s) && Valid(w.s, v)
    ensures KS.Wf(r.0.s) && w.s.vars <= r.0.s.vars
    ensures r.1.Done? ==> 0 <= r.1.value < |r.0.s.vars|
  {
    if v.indexId == Unindexed then (w, Done(v.id))
    else
      LoadKeeps(w.s, v.id, v.indexId);
      Call(w, KS.Load(w.s, v.id, v.indexId))
  }

  /** var::operator= (trusimd.hpp:135-144): trusimd_assign to an unindexed
      handle, trusimd_store through an indexed one; the right-hand side is
      evaluated first. The handle itself comes back. */
  function Assign(w: World, target: Var, other: Var): (r: (World, Outcome<Var>))
    requires KS.Wf(w.s) && Valid(w.s, target) && Valid(w.s, other)
    ensures KS.Wf(r.0.s) && w.s.vars <= r.0.s.vars
    ensures r.1.Done? ==> r.1.value == target
  {
    var (w1, o) := Eval(w, other);
    if o.Thrown? then (w1, Thrown(o.ex))
    else if target.indexId == Unindexed then
      // (*this)() of an unindexed handle is its id, with no effect.
      AssignKeeps(w1.s, target.id, o.value);
      var (w2, o2) := Call(w1, KS.Assign(w1.s, target.id, o.value));
      (w2, if o2.Thrown? then Thrown(o2.ex) else Done(target))
    else
      StoreKeeps(w1.s, target.id, target.indexId, o.value);
      var (w2, o2) := Call(w1, KS.Store(w1.s, target.id, target.indexId, o.value));
      (w2, if o2.Thrown? then Thrown(o2.ex) else Done(target))
  }

  /** var::operator+ (trusimd.hpp:146-151). The two operands are arguments
      of one call, which C++ may evaluate in either order: leftFirst says
      which. A type error is the int trusimd_binop throws, and leaves
      trusimd_errno alone. */
  function Plus(w: World, a: Var, b: Var, leftFirst: bool): (r: (World, Outcome<Var>))
    requires KS.Wf(w.s) && Valid(w.s, a) && Valid(w.s, b)
    ensures KS.Wf(r.0.s) && w.s.vars <= r.0.s.vars
    ensures r.1.Done? ==> Valid(r.0.s, r.1.value) && r.1.value.indexId == Unindexed
  {
    var r1 := Eval(w, if leftFirst then a else b);
    if r1.1.Thrown? then (r1.0, Thrown(r1.1.ex))
    else
      var r2 := Eval(r1.0, if leftFirst then b else a);
      if r2.1.Thrown? then (r2.0, Thrown(r2.1.ex))
      else
        Grows(w.s.vars, r1.0.s.vars, r2.0.s.vars);
        if leftFirst then AddValues(r2.0, r1.1.value, r2.1.value)
        else AddValues(r2.0, r2.1.value, r1.1.value)
  }

  /** The trusimd_add call of operator+, once both operands are ids. */
  function AddValues(w: World, l: int, r: int): (res: (World, Outcome<Var>))
    requires KS.Wf(w.s) && 0 <= l < |w.s.vars| && 0 <= r < |w.s.vars|
    ensures KS.Wf(res.0.s) && w.s.vars <= res.0.s.vars
    ensures res.1.Done? ==> Valid(res.0.s, res.1.value) && res.1.value.indexId == Unindexed
  {
    BinOpKeeps(w.s, Add, l, r);
    var b := KS.BinOp(w.s, Add, l, r);
    if b.1.Err? then (World(b.0, w.errno), Thrown(IntThrown(b.1.code)))
    else
      var o := ThrowIfErrorInt(b.1.value, w.errno);
      (World(b.0, w.errno), match o case Thrown(e) => Thrown(e) case Done(id) => Done(Var(id, Unindexed)))
  }

  /** var::operator[](var) (trusimd.hpp:153-158): the handle's value, then
      the index's, as an element handle. */
  function Index(w: World, a: Var, index: Var): (r: (World, Outcome<Var>))
    requires KS.Wf(w.s) && Valid(w.s, a) && Valid(w.s, index)
    ensures KS.Wf(r.0.s) && w.s.vars <= r.0.s.vars
    ensures r.1.Done? ==> Valid(r.0.s, r.1.value)
  {
    var (w1, o1) := Eval(w, a);
    if o1.Thrown? then (w1, Thrown(o1.ex))
    else
      var (w2, o2) := Eval(w1, index);
      if o2.Thrown? then (w2, Thrown(o2.ex))
      else (w2, Done(Var(o1.value, o2.value)))
  }

  /** var::operator[](gid) (trusimd.hpp:160-166): the handle's value,
      indexed by the global index variable. */
  function IndexGid(w: World, a: Var): (r: (World, Outcome<Var>))
    requires KS.Wf(w.s) && Valid(w.s, a)
    ensures KS.Wf(r.0.s) && w.s.vars <= r.0.s.vars
    ensures r.1.Done? ==> Valid(r.0.s, r.1.value)
  {
    var (w1, o1) := Eval(w, a);
    if o1.Thrown? then (w1, Thrown(o1.ex))
    else
      match ThrowIfErrorInt(KS.GetGlobalId(w1.s), w1.errno)
      case Thrown(e) => (w1, Thrown(e))
      case Done(g) => (w1, Done(Var(o1.value, g)))
  }

  /** arg(i) (trusimd.hpp:319-324): the i-th argument's variable, after the
      bounds check trusimd_get_kernel_arg does not make. */
  function Arg(w: World, i: int): (o: Outcome<Var>)
    requires KS.Wf(w.s)
    ensures o.Done? ==> Valid(w.s, o.value)
  {
    if i < 0 || i >= KS.NbArgs(w.s) then Thrown(RuntimeError(EINDEX))
    else Done(Var(KS.GetArg(w.s, i), Unindexed))
  }

  // ---------------------------------------------------------------------
  // What the operators promise

  /** arg(i) throws EINDEX exactly when i is outside the argument list, and
      otherwise names the i-th argument's variable; it never touches
      trusimd_errno, since it takes no session at all. */
  lemma ArgBounds(w: World, i: int)
    requires KS.Wf(w.s)
    ensures Arg(w, i) == Thrown(RuntimeError(EINDEX)) <==> i < 0 || i >= |w.s.args|
    ensures 0 <= i < |w.s.args| ==> Arg(w, i) == Done(Var(w.s.argsVars[i], Unindexed))
  {
  }

  /** Evaluating an unindexed handle issues nothing; evaluating an indexed
      one is exactly one trusimd_load of its id at its index. */
  lemma EvalDispatch(w: World, v: Var)
    requires KS.Wf(w.s) && Valid(w.s, v)
    ensures v.indexId == Unindexed ==> Eval(w, v) == (w, Done(v.id))
    ensures v.indexId != Unindexed ==>
      var (s1, res) := KS.Load(w.s, v.id, v.indexId);
      Eval(w, v).0.s == s1 &&
      (res.Ok? ==> Eval(w, v).1 == Done(res.value)) &&
      (res.Err? ==> Eval(w, v).1 == Thrown(RuntimeError(ETYPE)) && Eval(w, v).0.errno == ETYPE)
  {
    if v.indexId != Unindexed {
      KS.LoadRejects(w.s, v.id, v.indexId);
      LoadKeeps(w.s, v.id, v.indexId);
    }
  }

  /** Assigning through an unindexed handle is trusimd_assign on its id;
      through an indexed one, trusimd_store at its index; either way of the
      right-hand side's value, under TRUSIMD_THROW_IF_ERROR_INT. The
      handle itself comes back, and a throw of the right-hand side leaves
      the target alone. */
  lemma AssignDispatch(w: World, target: Var, other: Var)
    requires KS.Wf(w.s) && Valid(w.s, target) && Valid(w.s, other)
    ensures var r1 := Eval(w, other);
      r1.1.Thrown? ==> Assign(w, target, other) == (r1.0, Thrown(r1.1.ex))
    ensures var r1 := Eval(w, other);
      r1.1.Done? ==>
        Assign(w, target, other).0.s ==
          if target.indexId == Unindexed then KS.Assign(r1.0.s, target.id, r1.1.value).0
          else KS.Store(r1.0.s, target.id, target.indexId, r1.1.value).0
    ensures var r1 := Eval(w, other);
      r1.1.Done? && target.indexId == Unindexed ==>
        var r2 := Call(r1.0, KS.Assign(r1.0.s, target.id, r1.1.value));
        Assign(w, target, other) == (r2.0, if r2.1.Thrown? then Thrown(r2.1.ex) else Done(target))
    ensures var r1 := Eval(w, other);
      r1.1.Done? && target.indexId != Unindexed ==>
        var r2 := Call(r1.0, KS.Store(r1.0.s, target.id, target.indexId, r1.1.value));
        Assign(w, target, other) == (r2.0, if r2.1.Thrown? then Thrown(r2.1.ex) else Done(target))
  {
  }

  /** operator[](var) records the handle's value as the element's id and
      the index's value as its index; a throw is that of the first of the
      two evaluations that throws, and leaves the second unissued. */
  lemma IndexDispatch(w: World, a: Var, index: Var)
    requires KS.Wf(w.s) && Valid(w.s, a) && Valid(w.s, index)
    ensures var r1 := Eval(w, a);
      r1.1.Thrown? ==> Index(w, a, index) == (r1.0, Thrown(r1.1.ex))
    ensures var r1 := Eval(w, a);
      r1.1.Done? ==>
        var r2 := Eval(r1.0, index);
        (r2.1.Thrown? ==> Index(w, a, index) == (r2.0, Thrown(r2.1.ex))) &&
        (r2.1.Done? ==> Index(w, a, index) == (r2.0, Done(Var(r1.1.value, r2.1.value))))
    ensures a.indexId == Unindexed && index.indexId == Unindexed ==>
      Index(w, a, index) == (w, Done(Var(a.id, index.id)))
  {
  }

  /** operator+ evaluates the operand leftFirst names, then the other, and
      adds the left value to the right one; a throw is that of the first
      evaluation that throws, which leaves the other one unissued. */
  lemma PlusDispatch(w: World, a: Var, b: Var, leftFirst: bool)
    requires KS.Wf(w.s) && Valid(w.s, a) && Valid(w.s, b)
    ensures var r1 := Eval(w, if leftFirst then a else b);
      r1.1.Thrown? ==> Plus(w, a, b, leftFirst) == (r1.0, Thrown(r1.1.ex))
    ensures var r1 := Eval(w, if leftFirst then a else b);
      r1.1.Done? ==>
        var r2 := Eval(r1.0, if leftFirst then b else a);
        r2.1.Thrown? ==> Plus(w, a, b, leftFirst) == (r2.0, Thrown(r2.1.ex))
    ensures var r1 := Eval(w, if leftFirst then a else b);
      r1.1.Done? ==>
        var r2 := Eval(r1.0, if leftFirst then b else a);
        r2.1.Done? ==>
          0 <= r1.1.value < |r2.0.s.vars| &&
          Plus(w, a, b, leftFirst) ==
            AddValues(r2.0, if leftFirst then r1.1.value else r2.1.value,
                            if leftFirst then r2.1.value else r1.1.value)
    ensures a.indexId == Unindexed && b.indexId == Unindexed ==>
      Plus(w, a, b, leftFirst) == AddValues(w, a.id, b.id)
  {
    var r1 := Eval(w, if leftFirst then a else b);
    if r1.1.Done? {
      var r2 := Eval(r1.0, if leftFirst then b else a);
      Grows(w.s.vars, r1.0.s.vars, r2.0.s.vars);
    }
  }

  /** The trusimd_add under operator+ throws the int ETYPE, with the session
      and trusimd_errno untouched, exactly when the two types fail the
      binop's rule; otherwise it names the id trusimd_binop returns, and
      trusimd_errno is still as it was. */
  lemma AddValuesDispatch(w: World, l: int, r: int)
    requires KS.Wf(w.s) && 0 <= l < |w.s.vars| && 0 <= r < |w.s.vars|
    ensures AddValues(w, l, r) == (w, Thrown(IntThrown(ETYPE))) <==> !TypeOk(Add, w.s.vars[l], w.s.vars[r])
    ensures TypeOk(Add, w.s.vars[l], w.s.vars[r]) ==>
      var b := KS.BinOp(w.s, Add, l, r);
      b.1.Ok? && AddValues(w, l, r) == (World(b.0, w.errno), Done(Var(b.1.value, Unindexed)))
  {
    KS.BinOpRejects(w.s, Add, l, r);
    BinOpKeeps(w.s, Add, l, r);
    var b := KS.BinOp(w.s, Add, l, r);
    if b.1.Ok? {
      assert ThrowIfErrorInt(b.1.value, w.errno) == Done(b.1.value);
    }
  }

  /** Indexing by gid records the global index variable, so the element's
      later load or store is promoted to the vector lane mode. */
  lemma IndexGidPromotes(w: World, a: Var)
    requires KS.Wf(w.s) && Valid(w.s, a)
    requires IndexGid(w, a).1.Done?
    ensures var (w1, o) := IndexGid(w, a);
      o.value.indexId == w1.s.globalIndexVar &&
      KS.Elem(w1.s, o.value.id, o.value.indexId) == Vectorized(RemovePointer(w1.s.vars[o.value.id]))
  {
  }

  /** Ending a session writes its closing texts again each time; a kernel
      object's `finished` flag is what keeps operator() and operator<< to
      one end per object. */
  function Finish(s: KS.Session, finished: bool): (r: (KS.Session, bool))
    requires KS.Wf(s)
    ensures r.1 && KS.Wf(r.0)
  {
    KS.EndSpec(s);
    if finished then (s, true) else (KS.End(s), true)
  }

  /** Finishing is idempotent: a second operator<< or operator() ends
      nothing more. */
  lemma FinishOnce(s: KS.Session, finished: bool)
    requires KS.Wf(s)
    ensures Finish(Finish(s, finished).0, true) == Finish(s, finished)
    ensures !finished ==> Finish(s, finished).0.cuda == s.cuda + "}\n"
  {
    KS.EndSpec(s);
  }

  /** The rule operator<< draws between the three texts. */
  const Rule: string := "============================================\n"

  /** What operator<< (trusimd.hpp:301-314) writes for a session it has
      ended: the CUDA, OpenCL and vector LLVM IR texts, each under a rule
      and a title. */
  function Shown(s: KS.Session): string {
    Rule + "CUDA:\n\n" + s.cuda + "\n\n" +
    Rule + "OpenCL:\n\n" + s.opencl + "\n\n" +
    Rule + "LLVM IR:\n\n" + s.irVec + "\n\n"
  }

  /** The CUDA text comes out whole, right after its title. */
  lemma ShownCuda(s: KS.Session)
    ensures var n := |Rule + "CUDA:\n\n"|; Shown(s)[n..n + |s.cuda|] == s.cuda
  {
    var n := |Rule + "CUDA:\n\n"|;
    var t := Shown(s);
    assert t == (Rule + "CUDA:\n\n") + (s.cuda + ("\n\n" + Rule + "OpenCL:\n\n" + s.opencl + "\n\n" +
      Rule + "LLVM IR:\n\n" + s.irVec + "\n\n"));
  }

  // ---------------------------------------------------------------------
  // One statement of a kernel: arg(i)[gid] = arg(j)[gid] + arg(k)[gid];

  /** What a statement's loads and additions leave alone: the C texts, the
      global index, the indentation, the argument bookkeeping, the user
      variables and the expressions of the variables that already existed;
      the table only grows and the session stays well formed. */
  predicate Keeps(s: KS.Session, r: KS.Session) {
    KS.Wf(r) && s.vars <= r.vars && r.globalIndexVar == s.globalIndexVar && r.cIndent == s.cIndent &&
    r.cuda == s.cuda && r.opencl == s.opencl && r.userVars == s.userVars &&
    r.args == s.args && r.argsVars == s.argsVars &&
    (forall x :: 0 <= x < |s.vars| ==> KS.ExprAt(r.expr, x) == KS.ExprAt(s.expr, x))
  }

  lemma KeepsTrans(a: KS.Session, b: KS.Session, c: KS.Session)
    requires Keeps(a, b) && Keeps(b, c)
    ensures Keeps(a, c)
  {
  }

  /** The C expression of an element `p[g]`. */
  function ElementExpr(s: KS.Session, p: int, g: int): string {
    KS.ExprAt(s.expr, p) + "[" + KS.ExprAt(s.expr, g) + "]"
  }

  /** The expressions a builder's update leaves to the older variables:
      touching entries changes no expression, and the new entry is at an id
      past them. */
  lemma OlderExprs(e: map<int, string>, a: int, b: int, id: int, v: string, n: int)
    requires n <= id
    ensures forall x :: 0 <= x < n ==> KS.ExprAt(KS.Touch(KS.Touch(e, a), b)[id := v], x) == KS.ExprAt(e, x)
  {
    forall x | 0 <= x < n
      ensures KS.ExprAt(KS.Touch(KS.Touch(e, a), b)[id := v], x) == KS.ExprAt(e, x)
    {
      KS.ExprAtTouch(e, a, x);
      KS.ExprAtTouch(KS.Touch(e, a), b, x);
    }
  }

  /** x is a fresh id of s1, of type t and C expression e, and nothing else
      the statement depends on moved. */
  predicate Fresh(s: KS.Session, s1: KS.Session, x: int, t: Type, e: string) {
    Keeps(s, s1) && |s.vars| <= x < |s1.vars| && s1.vars[x] == t && KS.ExprAt(s1.expr, x) == e
  }

  /** What trusimd_load and trusimd_binop promise of their new id, read as
      a fresh id. */
  lemma FreshFrom(s: KS.Session, s1: KS.Session, a: int, b: int, x: int, t: Type, e: string)
    requires KS.Wf(s) && KS.Wf(s1) && s.vars <= s1.vars && |s.vars| <= x < |s1.vars| && s1.vars[x] == t
    requires s1.cuda == s.cuda && s1.opencl == s.opencl && s1.userVars == s.userVars
    requires s1.expr == KS.Touch(KS.Touch(s.expr, a), b)[x := e]
    requires s1.globalIndexVar == s.globalIndexVar && s1.cIndent == s.cIndent
    requires s1.args == s.args && s1.argsVars == s.argsVars
    ensures Fresh(s, s1, x, t, e)
  {
    OlderExprs(s.expr, a, b, x, e, |s.vars|);
  }

  /** `p[gid]` can be loaded: p is an id and the global index an integer. */
  predicate Ready(s: KS.Session, p: int) {
    KS.Wf(s) && 0 <= p < |s.vars| && IsInt(s.vars[s.globalIndexVar])
  }

  /** x is the load of `p[gid]` from s into s1: a fresh id of the
      vector-promoted element type whose C expression is `p`'s indexed by
      the global index's. */
  predicate Loaded(s: KS.Session, p: int, s1: KS.Session, x: int) {
    Ready(s, p) && Fresh(s, s1, x, Vectorized(RemovePointer(s.vars[p])), ElementExpr(s, p, s.globalIndexVar))
  }

  /** trusimd_load of `p[gid]` succeeds, and is such a load. */
  lemma LoadElement(s: KS.Session, p: int)
    requires Ready(s, p)
    ensures var r := KS.Load(s, p, s.globalIndexVar); r.1.Ok? && Loaded(s, p, r.0, r.1.value)
  {
    var g := s.globalIndexVar;
    KS.LoadSpec(s, p, g);
    var r := KS.Load(s, p, g);
    FreshFrom(s, r.0, p, g, r.1.value, Vectorized(RemovePointer(s.vars[p])), ElementExpr(s, p, g));
  }

  /** A load leaves every other element loadable. */
  lemma LoadedNext(s: KS.Session, p: int, s1: KS.Session, x: int, q: int)
    requires Loaded(s, p, s1, x) && Ready(s, q)
    ensures Ready(s1, q) && s1.globalIndexVar == s.globalIndexVar
  {
  }

  /** Evaluating `p[gid]` is that load, and throws nothing; the world it
      leaves and the id it yields are returned. */
  lemma EvalElement(w: World, p: int) returns (w1: World, x: int)
    requires Ready(w.s, p)
    ensures Eval(w, Var(p, w.s.globalIndexVar)) == (w1, Done(x))
    ensures w1.errno == w.errno && Loaded(w.s, p, w1.s, x)
  {
    var g := w.s.globalIndexVar;
    LoadElement(w.s, p);
    var r := KS.Load(w.s, p, g);
    CallOutcome(w, r);
    w1, x := World(r.0, w.errno), r.1.value;
  }

  /** l and r can be added: ids of one type, with C expressions el and er. */
  predicate AddReady(s: KS.Session, l: int, r: int, el: string, er: string) {
    KS.Wf(s) && 0 <= l < |s.vars| && 0 <= r < |s.vars| && s.vars[l] == s.vars[r] &&
    KS.ExprAt(s.expr, l) == el && KS.ExprAt(s.expr, r) == er
  }

  /** After loading `p[gid]` and `q[gid]` in either order, the two loaded
      ids are ready to be added, the left one being p's. */
  lemma OperandsReady(s: KS.Session, p: int, q: int, leftFirst: bool, s1: KS.Session, x1: int, s2: KS.Session, x2: int)
    requires Ready(s, p) && Ready(s, q) && RemovePointer(s.vars[p]) == RemovePointer(s.vars[q])
    requires Loaded(s, if leftFirst then p else q, s1, x1) && Loaded(s1, if leftFirst then q else p, s2, x2)
    ensures Keeps(s, s2)
    ensures AddReady(s2, if leftFirst then x1 else x2, if leftFirst then x2 else x1,
      ElementExpr(s, p, s.globalIndexVar), ElementExpr(s, q, s.globalIndexVar))
    ensures s2.vars[if leftFirst then x1 else x2] == Vectorized(RemovePointer(s.vars[p]))
  {
    KeepsTrans(s, s1, s2);
  }

  /** The addition of two ids ready to be added succeeds: a fresh id of the
      left one's type whose C expression is their parenthesised sum. */
  lemma AddLoaded(s: KS.Session, l: int, r: int, el: string, er: string) returns (s1: KS.Session, x: int)
    requires AddReady(s, l, r, el, er)
    ensures x >= 0 && KS.BinOp(s, Add, l, r) == (s1, Ok(x))
    ensures Fresh(s, s1, x, s.vars[l], "(" + el + " + " + er + ")")
  {
    KS.BinOpSpec(s, Add, l, r);
    var b := KS.BinOp(s, Add, l, r);
    FreshFrom(s, b.0, l, r, b.1.value, s.vars[l], "(" + el + " + " + er + ")");
    s1, x := b.0, b.1.value;
  }

  /** x is `p[gid] + q[gid]` computed from s into s1: a fresh id of the
      promoted element type whose C expression is the sum of the two
      elements'. */
  predicate Sum(s: KS.Session, p: int, q: int, s1: KS.Session, x: int) {
    0 <= p < |s.vars| &&
    Fresh(s, s1, x, Vectorized(RemovePointer(s.vars[p])),
      "(" + ElementExpr(s, p, s.globalIndexVar) + " + " + ElementExpr(s, q, s.globalIndexVar) + ")")
  }

  /** Two loads and an addition make such a sum. */
  lemma SumFrom(s: KS.Session, p: int, q: int, leftFirst: bool, s1: KS.Session, x1: int, s2: KS.Session, x2: int, s3: KS.Session, x3: int)
    requires Ready(s, p) && Ready(s, q) && RemovePointer(s.vars[p]) == RemovePointer(s.vars[q])
    requires Loaded(s, if leftFirst then p else q, s1, x1) && Loaded(s1, if leftFirst then q else p, s2, x2)
    requires 0 <= (if leftFirst then x1 else x2) < |s2.vars|
    requires Fresh(s2, s3, x3, s2.vars[if leftFirst then x1 else x2],
      "(" + ElementExpr(s, p, s.globalIndexVar) + " + " + ElementExpr(s, q, s.globalIndexVar) + ")")
    ensures Sum(s, p, q, s3, x3)
  {
    OperandsReady(s, p, q, leftFirst, s1, x1, s2, x2);
    KeepsTrans(s, s2, s3);
  }

  /** operator+ on `p[gid]` and `q[gid]` once both have been evaluated: the
      addition of the two ids, p's first. */
  lemma PlusOf(w: World, p: int, q: int, leftFirst: bool, w1: World, x1: int, w2: World, x2: int, el: string, er: string)
    requires Ready(w.s, p) && Ready(w.s, q)
    requires Eval(w, Var(if leftFirst then p else q, w.s.globalIndexVar)) == (w1, Done(x1))
    requires Ready(w1.s, if leftFirst then q else p) && w1.s.globalIndexVar == w.s.globalIndexVar
    requires Eval(w1, Var(if leftFirst then q else p, w.s.globalIndexVar)) == (w2, Done(x2))
    requires AddReady(w2.s, if leftFirst then x1 else x2, if leftFirst then x2 else x1, el, er)
    ensures Plus(w, Var(p, w.s.globalIndexVar), Var(q, w.s.globalIndexVar), leftFirst) ==
      AddValues(w2, if leftFirst then x1 else x2, if leftFirst then x2 else x1)
  {
  }

  /** An addition that succeeds yields the unindexed handle of its id. */
  lemma AddValuesOf(w: World, l: int, r: int, el: string, er: string, s1: KS.Session, x: int)
    requires AddReady(w.s, l, r, el, er)
    requires x >= 0 && KS.BinOp(w.s, Add, l, r) == (s1, Ok(x))
    ensures AddValues(w, l, r) == (World(s1, w.errno), Done(Var(x, Unindexed)))
  {
    assert ThrowIfErrorInt(x, w.errno) == Done(x);
  }

  /** `p[gid] + q[gid]` for two pointers to the same element type, in
      either evaluation order: a fresh unindexed handle holding the sum, and
      no exception. */
  lemma PlusElements(w: World, p: int, q: int, leftFirst: bool) returns (w3: World, x: int)
    requires Ready(w.s, p) && Ready(w.s, q) && RemovePointer(w.s.vars[p]) == RemovePointer(w.s.vars[q])
    ensures Plus(w, Var(p, w.s.globalIndexVar), Var(q, w.s.globalIndexVar), leftFirst) == (w3, Done(Var(x, Unindexed)))
    ensures w3.errno == w.errno && Sum(w.s, p, q, w3.s, x)
  {
    var g := w.s.globalIndexVar;
    var first := if leftFirst then p else q;
    var second := if leftFirst then q else p;
    var w1, x1 := EvalElement(w, first);
    LoadedNext(w.s, first, w1.s, x1, second);
    var w2, x2 := EvalElement(w1, second);
    var el, er := ElementExpr(w.s, p, g), ElementExpr(w.s, q, g);
    OperandsReady(w.s, p, q, leftFirst, w1.s, x1, w2.s, x2);
    var l := if leftFirst then x1 else x2;
    var r := if leftFirst then x2 else x1;
    var s3, x3 := AddLoaded(w2.s, l, r, el, er);
    SumFrom(w.s, p, q, leftFirst, w1.s, x1, w2.s, x2, s3, x3);
    PlusOf(w, p, q, leftFirst, w1, x1, w2, x2, el, er);
    AddValuesOf(w2, l, r, el, er, s3, x3);
    w3, x := World(s3, w2.errno), x3;
  }

  /** Assigning an unindexed value through an indexed handle is one
      trusimd_store of that value. */
  lemma AssignIndexed(w: World, target: Var, v: int)
    requires KS.Wf(w.s) && Valid(w.s, target) && target.indexId != Unindexed && 0 <= v < |w.s.vars|
    ensures var (w1, o) := Call(w, KS.Store(w.s, target.id, target.indexId, v));
      Assign(w, target, Var(v, Unindexed)) == (w1, if o.Thrown? then Thrown(o.ex) else Done(target))
  {
  }

  /** The C line of a store `p[i] = v;`, from the three expressions. */
  function StoreLine(pe: string, ie: string, ve: string): string {
    pe + ("[" + (ie + ("] = " + (ve + ";\n\n"))))
  }

  /** `p[gid] = v` for a value of the promoted element type: the C texts
      gain the indexed assignment, and nothing is thrown. */
  lemma AssignElement(w: World, p: int, v: int)
    requires KS.Wf(w.s) && 0 <= p < |w.s.vars| && 0 <= v < |w.s.vars| && IsInt(w.s.vars[w.s.globalIndexVar])
    requires w.s.vars[v] == Vectorized(RemovePointer(w.s.vars[p]))
    ensures var g := w.s.globalIndexVar; var a := Assign(w, Var(p, g), Var(v, Unindexed));
      var e := w.s.expr; var line := StoreLine(KS.ExprAt(e, p), KS.ExprAt(e, g), KS.ExprAt(e, v));
      a.1 == Done(Var(p, g)) && a.0.errno == w.errno &&
      a.0.s.cuda == w.s.cuda + (Repeat(' ', w.s.cIndent) + line) &&
      a.0.s.opencl == w.s.opencl + (Repeat(' ', w.s.cIndent) + line)
  {
    var g := w.s.globalIndexVar;
    KS.StoreSpec(w.s, p, g, v);
    AssignIndexed(w, Var(p, g), v);
    CallOutcome(w, KS.Store(w.s, p, g, v));
  }

  /** `arg(i)[gid]` names argument i's variable indexed by the global index,
      and issues nothing. */
  lemma ArgAtGid(w: World, i: int)
    requires KS.Wf(w.s) && 0 <= i < |w.s.args|
    ensures Arg(w, i) == Done(Var(w.s.argsVars[i], Unindexed))
    ensures IndexGid(w, Var(w.s.argsVars[i], Unindexed)) == (w, Done(Var(w.s.argsVars[i], w.s.globalIndexVar)))
  {
  }

  /** The line `p0[gid] = (p1[gid] + p2[gid]);` in the expressions of s. */
  function SumLine(s: KS.Session, p0: int, p1: int, p2: int): string {
    var g := s.globalIndexVar;
    StoreLine(KS.ExprAt(s.expr, p0), KS.ExprAt(s.expr, g),
      "(" + ElementExpr(s, p1, g) + " + " + ElementExpr(s, p2, g) + ")")
  }

  /** After the sum, `p0[gid]` can take it. */
  lemma SumStorable(s: KS.Session, p0: int, p1: int, p2: int, s3: KS.Session, x: int)
    requires Ready(s, p0) && Ready(s, p1) && RemovePointer(s.vars[p0]) == RemovePointer(s.vars[p1])
    requires Sum(s, p1, p2, s3, x)
    ensures KS.Wf(s3) && 0 <= p0 < |s3.vars| && 0 <= x < |s3.vars| && IsInt(s3.vars[s3.globalIndexVar])
    ensures s3.vars[x] == Vectorized(RemovePointer(s3.vars[p0]))
    ensures s3.globalIndexVar == s.globalIndexVar && s3.cIndent == s.cIndent
    ensures s3.cuda == s.cuda && s3.opencl == s.opencl
    ensures StoreLine(KS.ExprAt(s3.expr, p0), KS.ExprAt(s3.expr, s3.globalIndexVar), KS.ExprAt(s3.expr, x)) == SumLine(s, p0, p1, p2)
  {
  }

  /** `p0[gid] = p1[gid] + p2[gid];` for three pointers to one element type,
      the operands loaded in either order: nothing is thrown, trusimd_errno
      is untouched, and each C text gains exactly the one line of the
      statement, the sum kept as one infix expression. */
  lemma ElementSumStatement(w: World, p0: int, p1: int, p2: int, leftFirst: bool)
    requires Ready(w.s, p0) && Ready(w.s, p1) && Ready(w.s, p2)
    requires RemovePointer(w.s.vars[p0]) == RemovePointer(w.s.vars[p1]) == RemovePointer(w.s.vars[p2])
    ensures var g := w.s.globalIndexVar; var r := Plus(w, Var(p1, g), Var(p2, g), leftFirst);
      r.1.Done? &&
      var a := Assign(r.0, Var(p0, g), r.1.value);
      a.1 == Done(Var(p0, g)) && a.0.errno == w.errno &&
      a.0.s.cuda == w.s.cuda + (Repeat(' ', w.s.cIndent) + SumLine(w.s, p0, p1, p2)) &&
      a.0.s.opencl == w.s.opencl + (Repeat(' ', w.s.cIndent) + SumLine(w.s, p0, p1, p2))
  {
    var w3, x := PlusElements(w, p1, p2, leftFirst);
    SumStorable(w.s, p0, p1, p2, w3.s, x);
    AssignElement(w3, p0, x);
  }

  // ---------------------------------------------------------------------
  // The vector_add kernel (tests/simple_kernel.cpp)

  /** The session `kernel("vector_add", float32ptr, float32ptr, float32ptr)`
      opens: arguments 2, 5 and 8, global index 9, C indentation 2, and the
      C name of each. */
  predicate VectorAddOpened(s: KS.Session) {
    KS.Wf(s) && s.argsVars == [2, 5, 8] && s.globalIndexVar == 9 && |s.vars| == 10 &&
    s.vars[2] == Float32Ptr && s.vars[5] == Float32Ptr && s.vars[8] == Float32Ptr && s.vars[9] == Int64 &&
    s.cIndent == 2 && KS.ExprAt(s.expr, 2) == "v2" && KS.ExprAt(s.expr, 5) == "v5" &&
    KS.ExprAt(s.expr, 8) == "v8" && KS.ExprAt(s.expr, 9) == "v9"
  }

  /** The C names of the four variables the statement uses. */
  lemma VectorAddNames()
    ensures VarRef(CU, 2) == "v2" && VarRef(CU, 5) == "v5" && VarRef(CU, 8) == "v8" && VarRef(CU, 9) == "v9"
  {
    assert IntToString(2) == "2" && IntToString(5) == "5" && IntToString(8) == "8" && IntToString(9) == "9";
  }

  /** What trusimd_create_kernel_ap promises, for three float pointers. */
  lemma OpenedThree(s: KS.Session, ts: seq<Type>)
    requires ts == [Float32Ptr, Float32Ptr, Float32Ptr, NoType]
    requires s.args == ts[..3] && |s.argsVars| == 3 && s.globalIndexVar == 9 &&
      |s.vars| == 10 && s.vars[9] == Int64 && s.cIndent == 2 && KS.Wf(s)
    requires forall j :: 0 <= j < 3 ==> s.argsVars[j] == 3 * j + 2 && s.vars[3 * j + 2] == ts[j]
    requires forall j :: 0 <= j < |s.argsVars| ==> KS.ExprAt(s.expr, s.argsVars[j]) == VarRef(CU, s.argsVars[j])
    requires KS.ExprAt(s.expr, s.globalIndexVar) == VarRef(CU, s.globalIndexVar)
    ensures VectorAddOpened(s)
  {
    assert s.argsVars[0] == 2 && s.argsVars[1] == 5 && s.argsVars[2] == 8;
    assert s.argsVars == [2, 5, 8];
    assert s.vars[2] == ts[0] && s.vars[5] == ts[1] && s.vars[8] == ts[2];
    VectorAddNames();
  }

  /** `kernel("vector_add", float32ptr, float32ptr, float32ptr)` opens that
      session, the constructor having appended the terminator. */
  lemma VectorAddSession(name: string, ts: seq<Type>)
    requires ts == [Float32Ptr, Float32Ptr, Float32Ptr, NoType]
    ensures VectorAddOpened(KS.Create(name, ts))
  {
    assert Float32Ptr != NoType;
    assert KS.ParamCount(ts, 0) == 3;
    KS.CreateSpec(name, ts);
    KS.CreateExprs(name, ts);
    OpenedThree(KS.Create(name, ts), ts);
  }

  /** The facts about its session the statement relies on. */
  lemma VectorAddReady(s: KS.Session)
    requires VectorAddOpened(s)
    ensures Ready(s, 2) && Ready(s, 5) && Ready(s, 8)
    ensures RemovePointer(s.vars[2]) == RemovePointer(s.vars[5]) == RemovePointer(s.vars[8])
    ensures Repeat(' ', s.cIndent) + SumLine(s, 2, 5, 8) == "  v2[v9] = (v5[v9] + v8[v9]);\n\n"
  {
    assert IsInt(Int64);
    assert Repeat(' ', 2) == "  ";
  }

  /** In that session, arg(0), arg(1) and arg(2) at gid are the handles of
      variables 2, 5 and 8 indexed by 9, and the kernel's one statement
      `arg(0)[gid] = arg(1)[gid] + arg(2)[gid];` writes
      `  v2[v9] = (v5[v9] + v8[v9]);` and a blank line into both C texts,
      whichever operand is loaded first. */
  lemma VectorAddStatement(w: World, leftFirst: bool)
    requires VectorAddOpened(w.s)
    ensures Arg(w, 0) == Done(Var(2, Unindexed)) && Arg(w, 1) == Done(Var(5, Unindexed)) && Arg(w, 2) == Done(Var(8, Unindexed))
    ensures IndexGid(w, Var(2, Unindexed)) == (w, Done(Var(2, 9))) &&
      IndexGid(w, Var(5, Unindexed)) == (w, Done(Var(5, 9))) &&
      IndexGid(w, Var(8, Unindexed)) == (w, Done(Var(8, 9)))
    ensures var r := Plus(w, Var(5, 9), Var(8, 9), leftFirst);
      r.1.Done? &&
      var a := Assign(r.0, Var(2, 9), r.1.value);
      a.1 == Done(Var(2, 9)) && a.0.errno == w.errno &&
      a.0.s.cuda == w.s.cuda + "  v2[v9] = (v5[v9] + v8[v9]);\n\n" &&
      a.0.s.opencl == w.s.opencl + "  v2[v9] = (v5[v9] + v8[v9]);\n\n"
  {
    ArgAtGid(w, 0);
    ArgAtGid(w, 1);
    ArgAtGid(w, 2);
    VectorAddReady(w.s);
    ElementSumStatement(w, 2, 5, 8, leftFirst);
  }
}
