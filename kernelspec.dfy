/** The builder session of trusimd.cpp (struct trusimd_kernel, trusimd.cpp:69-90)
    as a value, and each builder entry point as a function from session to
    session. The Kernel class of the Builder module is proved to follow
    these functions; the lemmas here state what they mean. */
module KernelSpec {
  import opened TypeDesc
  import opened Decimal
  import opened TypeText
  import opened Emitter
  import opened Templates
  import opened Ops
  import opened ErrorCodes

  datatype Session = Session(
    name: string,
    // LLVM IR
    userVars: set<int>,
    typePos: seq<int>,
    irVec: string,
    irSca: string,
    irIndent: int,
    // CUDA/OpenCL
    expr: map<int, string>,
    cuda: string,
    opencl: string,
    cIndent: int,
    // Common to all
    vars: seq<Type>,
    args: seq<Type>,
    argsVars: seq<int>,
    nextVar: int,
    globalIndexVar: int)

  // ---------------------------------------------------------------------
  // print

  /** The buffer print writes for a dialect. */
  function Buffer(s: Session, lang: Lang): string {
    match lang
    case IRVec => s.irVec
    case IRSca => s.irSca
    case CU => s.cuda
    case CL => s.opencl
  }

  /** The indentation print uses for a dialect. */
  function Indentation(s: Session, lang: Lang): int {
    if IsIr(lang) then s.irIndent else s.cIndent
  }

  function WithBuffer(s: Session, lang: Lang, b: string): Session {
    match lang
    case IRVec => s.(irVec := b)
    case IRSca => s.(irSca := b)
    case CU => s.(cuda := b)
    case CL => s.(opencl := b)
  }

  /** print (trusimd.cpp:222-318): what the format writes is appended to the
      dialect's buffer; the marks it records go to type_pos, which only the
      vector IR writes. */
  function Print(s: Session, lang: Lang, fmt: string, args: seq<Arg>): (r: Session)
    ensures r == s.(irVec := r.irVec, irSca := r.irSca, cuda := r.cuda, opencl := r.opencl, typePos := r.typePos)
    ensures Buffer(s, lang) <= Buffer(r, lang) && s.typePos <= r.typePos
    ensures lang != IRVec ==> r.irVec == s.irVec && r.typePos == s.typePos
    ensures lang != IRSca ==> r.irSca == s.irSca
    ensures lang != CU ==> r.cuda == s.cuda
    ensures lang != CL ==> r.opencl == s.opencl
  {
    var e := Emit(lang, fmt, args, Indentation(s, lang), |Buffer(s, lang)|);
    var r := WithBuffer(s, lang, Buffer(s, lang) + e.text);
    if lang == IRVec then r.(typePos := s.typePos + e.marks) else r
  }

  /** What print's loop leaves behind, once the whole format is accounted
      for, is the session print specifies. */
  lemma PrintFrom(s: Session, lang: Lang, fmt: string, args: seq<Arg>, t: string, marks: seq<int>, buf: string)
    requires Emit(lang, fmt, args, Indentation(s, lang), |Buffer(s, lang)|) == Emitted(t, marks)
    requires buf == Buffer(s, lang) + t
    requires lang != IRVec ==> marks == []
    ensures Print(s, lang, fmt, args) == WithBuffer(s.(typePos := s.typePos + marks), lang, buf)
  {
    match lang
    case IRVec =>
    case IRSca =>
      assert s.typePos + marks == s.typePos;
    case CU =>
      assert s.typePos + marks == s.typePos;
    case CL =>
      assert s.typePos + marks == s.typePos;
  }

  /** The same template printed to both IR buffers. */
  function IrPair(s: Session, toks: seq<Tok>, args: seq<Arg>): (r: Session)
    ensures r == s.(irVec := r.irVec, irSca := r.irSca, typePos := r.typePos)
    ensures s.irVec <= r.irVec && s.irSca <= r.irSca && s.typePos <= r.typePos
  {
    Print(Print(s, IRVec, Spell(toks), args), IRSca, Spell(toks), args)
  }

  /** The same template printed to both C buffers. */
  function CPair(s: Session, toks: seq<Tok>, args: seq<Arg>): (r: Session)
    ensures r == s.(cuda := r.cuda, opencl := r.opencl)
    ensures s.cuda <= r.cuda && s.opencl <= r.opencl
  {
    Print(Print(s, CU, Spell(toks), args), CL, Spell(toks), args)
  }

  // ---------------------------------------------------------------------
  // pick_next_var

  /** The variable table is dense: next_var is its last index. */
  predicate Dense(s: Session) {
    s.nextVar == |s.vars| - 1
  }

  /** std::vector::resize: truncates, or pads with value-initialised
      (all-zero) descriptors. */
  function Resize(v: seq<Type>, n: nat): (r: seq<Type>)
    ensures |r| == n
    ensures forall i :: 0 <= i < n && i < |v| ==> r[i] == v[i]
    ensures forall i :: |v| <= i < n ==> r[i] == NoType
  {
    if n <= |v| then v[..n] else v + seq(n - |v|, _ => NoType)
  }

  /** pick_next_var (trusimd.cpp:104-109): the next id, recorded with its
      type; every entry below it is kept. */
  function Pick(s: Session, t: Type): (r: (Session, int))
    requires s.nextVar >= -1
    ensures r.1 == s.nextVar + 1 && |r.0.vars| == r.1 + 1 && r.0.vars[r.1] == t
    ensures forall i :: 0 <= i < r.1 && i < |s.vars| ==> r.0.vars[i] == s.vars[i]
    ensures Dense(r.0) && r.0 == s.(vars := r.0.vars, nextVar := r.1)
    ensures Dense(s) ==> r.0.vars == s.vars + [t]
  {
    var id := s.nextVar + 1;
    (s.(nextVar := id, vars := Resize(s.vars, id + 1)[id := t]), id)
  }

  // ---------------------------------------------------------------------
  // The expression map: std::map::operator[] inserts an empty string for
  // a missing key before returning it.

  function ExprAt(e: map<int, string>, x: int): string {
    if x in e then e[x] else ""
  }

  function Touch(e: map<int, string>, x: int): (r: map<int, string>)
    ensures x in r && r[x] == ExprAt(e, x)
    ensures forall y :: y in e ==> y in r && r[y] == e[y]
    ensures forall y :: y in r ==> y in e || y == x
  {
    if x in e then e else e[x := ""]
  }

  /** Inserting a default leaves every lookup as it was. */
  lemma ExprAtTouch(e: map<int, string>, x: int, y: int)
    ensures ExprAt(Touch(e, x), y) == ExprAt(e, y)
  {
  }

  // ---------------------------------------------------------------------
  // need_ir_var

  /** need_ir_var (trusimd.cpp:323-334): a user variable lives in memory,
      so it is loaded into a fresh id in both IR buffers; any other id is
      used as is. */
  function Need(s: Session, x: int): (r: (Session, int))
    requires Dense(s) && 0 <= x < |s.vars|
    ensures Dense(r.0) && |s.vars| <= |r.0.vars|
  {
    if x !in s.userVars then (s, x)
    else
      var t := s.vars[x];
      var (s1, nv) := Pick(s, t);
      (IrPair(s1, ReloadTpl(), [V(nv), T(t), T(t), V(x)]), nv)
  }

  // ---------------------------------------------------------------------
  // trusimd_binop and trusimd_add

  /** The IR half of trusimd_binop (trusimd.cpp:457-461). */
  function BinOpIr(s: Session, op: BinOp, l: int, r: int): (res: (Session, int))
    requires Dense(s) && 0 <= l < |s.vars| && 0 <= r < |s.vars|
    ensures Dense(res.0) && |s.vars| < |res.0.vars|
  {
    var lt := s.vars[l];
    var (s1, vl) := Need(s, l);
    var (s2, vr) := Need(s1, r);
    var (s3, nv) := Pick(s2, lt);
    var args := [V(nv), S(IrOp(op, lt)), T(lt), V(vl), V(vr)];
    (IrPair(s3, BinOpTpl(), args), nv)
  }

  /** trusimd_binop (trusimd.cpp:354-466): the type check throws ETYPE
      before anything is touched; otherwise the IR is written and the C
      side only records the parenthesised expression. */
  function BinOp(s: Session, op: BinOp, l: int, r: int): (res: (Session, Result<int>))
    requires Dense(s) && 0 <= l < |s.vars| && 0 <= r < |s.vars|
  {
    var lt := s.vars[l];
    if !TypeOk(op, lt, s.vars[r]) then (s, Err(ETYPE))
    else
      var (s1, nv) := BinOpIr(s, op, l, r);
      var e := Touch(Touch(s1.expr, l), r);
      var text := "(" + ExprAt(s1.expr, l) + COp(op, lt) + ExprAt(s1.expr, r) + ")";
      (s1.(expr := e[nv := text]), Ok(nv))
  }

  // ---------------------------------------------------------------------
  // trusimd_var

  /** trusimd_var (trusimd.cpp:674-697): a fresh user variable, allocated in
      both IRs, declared in both C dialects, whose C expression is its name. */
  function NewVar(s: Session, t: Type): (r: (Session, int))
    requires Dense(s)
  {
    var (s1, nv) := Pick(s, t);
    var s2 := s1.(userVars := s1.userVars + {nv});
    var s3 := IrPair(s2, AllocaTpl(), [V(nv), T(t)]);
    var s4 := CPair(s3, DeclTpl(), [T(t), V(nv)]);
    (s4.(expr := s4.expr[nv := "v" + IntToString(nv)]), nv)
  }

  // ---------------------------------------------------------------------
  // trusimd_assign

  /** trusimd_assign (trusimd.cpp:703-727). */
  function Assign(s: Session, l: int, r: int): (res: (Session, Result<int>))
    requires Dense(s) && 0 <= l < |s.vars| && 0 <= r < |s.vars|
  {
    var t := s.vars[l];
    if t != s.vars[r] then (s, Err(ETYPE))
    else
      var s1 := IrPair(s, StoreTpl(), [T(t), V(r), T(t), V(l)]);
      var rhs := ExprAt(s1.expr, r);
      var s2 := s1.(expr := Touch(s1.expr, r));
      (CPair(s2, AssignCTpl(), [V(l), S(rhs)]), Ok(0))
  }

  // ---------------------------------------------------------------------
  // trusimd_load and trusimd_store

  /** The element type a load or store through ptr works on: the pointee,
      promoted to vector mode exactly when the offset is the global index
      variable itself (an id comparison). */
  function Elem(s: Session, ptr: int, off: int): Type
    requires 0 <= ptr < |s.vars|
  {
    var t := RemovePointer(s.vars[ptr]);
    if off == s.globalIndexVar then Vectorized(t) else t
  }

  /** The cast of an element address to the vector element type, emitted
      only when promotion changed the type (trusimd.cpp:756-759, 806-809). */
  function Cast(s: Session, t: Type, tmp: int, vecT: Type): (r: (Session, int))
    requires Dense(s)
    ensures Dense(r.0) && |r.0.vars| == |s.vars| + 1
  {
    var (s1, tmp2) := Pick(s, vecT);
    (Print(s1, IRVec, Spell(BitcastTpl()), [V(tmp2), T(t), V(tmp), T(vecT)]), tmp2)
  }

  /** The arguments of the element-address instruction. */
  function GepArgs(tmp: int, t: Type, vptr: int, offT: Type, voff: int): seq<Arg> {
    [V(tmp), T(t), T(t), V(vptr), T(offT), V(voff)]
  }

  /** The vector IR's element address: the getelementptr into tmp, then the
      cast when promotion changed the type; the id the access goes through. */
  function VecAddress(s: Session, t: Type, vecT: Type, tmp: int, gep: seq<Arg>): (r: (Session, int))
    requires Dense(s)
    ensures Dense(r.0) && |s.vars| <= |r.0.vars|
  {
    var s4 := Print(s, IRVec, Spell(GepTpl()), gep);
    if t != vecT then Cast(s4, t, tmp, vecT) else (s4, tmp)
  }

  /** The IR half of trusimd_load (trusimd.cpp:750-765). */
  function LoadIr(s: Session, ptr: int, off: int): (r: (Session, int))
    requires Dense(s) && 0 <= ptr < |s.vars| && 0 <= off < |s.vars|
    ensures Dense(r.0) && |s.vars| < |r.0.vars|
  {
    var t := RemovePointer(s.vars[ptr]);
    var vecT := Elem(s, ptr, off);
    var offT := s.vars[off];
    var (s1, vptr) := Need(s, ptr);
    var (s2, tmp) := Pick(s1, vecT);
    var (s3, voff) := Need(s2, off);
    var gep := GepArgs(tmp, t, vptr, offT, voff);
    var (s5, tmp2) := VecAddress(s3, t, vecT, tmp, gep);
    var (s6, nv) := Pick(s5, vecT);
    var s7 := Print(s6, IRVec, Spell(LoadTpl()), [V(nv), T(vecT), T(vecT), V(tmp2)]);
    var s8 := Print(s7, IRSca, Spell(GepTpl()), gep);
    (Print(s8, IRSca, Spell(LoadTpl()), [V(nv), T(t), T(t), V(tmp)]), nv)
  }

  /** trusimd_load (trusimd.cpp:732-777): only the offset's type is
      checked; the result's C expression indexes the pointer's. */
  function Load(s: Session, ptr: int, off: int): (res: (Session, Result<int>))
    requires Dense(s) && 0 <= ptr < |s.vars| && 0 <= off < |s.vars|
  {
    if !IsInt(s.vars[off]) then (s, Err(ETYPE))
    else
      var (s1, nv) := LoadIr(s, ptr, off);
      var e := Touch(Touch(s1.expr, ptr), off);
      (s1.(expr := e[nv := ExprAt(s1.expr, ptr) + "[" + ExprAt(s1.expr, off) + "]"]), Ok(nv))
  }

  /** The IR half of trusimd_store (trusimd.cpp:799-815). */
  function StoreIr(s: Session, ptr: int, off: int, v: int): (r: Session)
    requires Dense(s) && 0 <= ptr < |s.vars| && 0 <= off < |s.vars| && 0 <= v < |s.vars|
    ensures Dense(r) && |s.vars| < |r.vars|
  {
    var ptrT := s.vars[ptr];
    var t := RemovePointer(ptrT);
    var vecT := Elem(s, ptr, off);
    var offT := s.vars[off];
    var (s1, tmp) := Pick(s, ptrT);
    var (s2, vptr) := Need(s1, ptr);
    var (s3, voff) := Need(s2, off);
    var gep := GepArgs(tmp, t, vptr, offT, voff);
    var (s5, tmp2) := VecAddress(s3, t, vecT, tmp, gep);
    var (s6, vv) := Need(s5, v);
    var s7 := Print(s6, IRVec, Spell(StoreTpl()), [T(vecT), V(vv), T(vecT), V(tmp2)]);
    var s8 := Print(s7, IRSca, Spell(GepTpl()), gep);
    Print(s8, IRSca, Spell(StoreTpl()), [T(t), V(vv), T(t), V(tmp)])
  }

  /** The type check of trusimd_store (trusimd.cpp:794): an integer offset,
      and a value of the element type or of its promotion. */
  predicate StoreOk(s: Session, ptr: int, off: int, v: int)
    requires 0 <= ptr < |s.vars| && 0 <= off < |s.vars| && 0 <= v < |s.vars|
  {
    IsInt(s.vars[off]) && (s.vars[v] == RemovePointer(s.vars[ptr]) || s.vars[v] == Elem(s, ptr, off))
  }

  /** trusimd_store (trusimd.cpp:782-830): the only builder besides
      trusimd_var and trusimd_assign that writes C text. */
  function Store(s: Session, ptr: int, off: int, v: int): (res: (Session, Result<int>))
    requires Dense(s) && 0 <= ptr < |s.vars| && 0 <= off < |s.vars| && 0 <= v < |s.vars|
  {
    if !StoreOk(s, ptr, off, v) then (s, Err(ETYPE))
    else
      var s1 := StoreIr(s, ptr, off, v);
      var args := [S(ExprAt(s1.expr, ptr)), S(ExprAt(s1.expr, off)), S(ExprAt(s1.expr, v))];
      var s2 := s1.(expr := Touch(Touch(Touch(s1.expr, ptr), off), v));
      (CPair(s2, StoreCTpl(), args), Ok(0))
  }

  // ---------------------------------------------------------------------
  // trusimd_create_kernel_ap

  /** The argument types the variadic list passes: those before the first
      trusimd_notype. */
  function ParamCount(ts: seq<Type>, i: nat): (m: nat)
    requires i <= |ts| && NoType in ts[i..]
    ensures i <= m < |ts| && ts[m] == NoType
    ensures forall j :: i <= j < m ==> ts[j] != NoType
    decreases |ts| - i
  {
    if ts[i] == NoType then i
    else
      assert ts[i..] == [ts[i]] + ts[i + 1..];
      ParamCount(ts, i + 1)
  }

  /** The bookkeeping of one pass of the argument loop
      (trusimd.cpp:523-534): three ids, the byte address, the typed address
      and the argument itself, which is recorded and named in C. */
  function ParamIds(s: Session, t: Type): (r: Session)
    requires Dense(s)
    ensures Dense(r) && r.vars == s.vars + [Int8, t, t]
  {
    var s1 := s.(args := s.args + [t]);
    var (s2, a8) := Pick(s1, Int8);
    var (s3, aT) := Pick(s2, t);
    var (s4, nv) := Pick(s3, t);
    s4.(expr := s4.expr[nv := "v" + IntToString(nv)], argsVars := s4.argsVars + [nv])
  }

  /** The text of one pass of the argument loop (trusimd.cpp:535-544): the
      parameter in the vector IR, CUDA and OpenCL, and in the scalar IR the
      unpacking of the argument from the i8* block at offset 8i. */
  function ParamPrints(s: Session, t: Type, i: int, a8: int, aT: int, nv: int): Session {
    var s6 := Print(s, IRVec, Spell(ParamTpl()), [T(t), V(nv)]);
    var s7 := Print(s6, IRSca, Spell(IrScaParamTpl()), [V(a8), D(8 * i), V(aT), V(a8), T(t), V(nv), T(t), T(t), V(aT)]);
    Print(Print(s7, CU, Spell(ParamTpl()), [T(t), V(nv)]), CL, Spell(ClParamTpl()), [T(t), V(nv)])
  }

  /** One pass of the argument loop (trusimd.cpp:522-545). */
  function Param(s: Session, t: Type, i: int): (r: Session)
    requires Dense(s)
    ensures Dense(r) && |r.vars| == |s.vars| + 3
  {
    var n := |s.vars|;
    ParamPrints(ParamIds(s, t), t, i, n, n + 1, n + 2)
  }

  /** The argument loop from argument i on, up to the terminator. */
  function Params(s: Session, ts: seq<Type>, i: nat): (r: Session)
    requires Dense(s) && i <= |ts| && NoType in ts[i..]
    ensures Dense(r)
    decreases |ts| - i
  {
    if ts[i] == NoType then s
    else
      assert ts[i..] == [ts[i]] + ts[i + 1..];
      Params(Param(s, ts[i], i), ts, i + 1)
  }

  /** The argument loop's first pass, taken out of Params. */
  lemma ParamsUnfold(s: Session, ts: seq<Type>, i: nat)
    requires Dense(s) && i < |ts| && NoType in ts[i..] && ts[i] != NoType
    ensures NoType in ts[i + 1..]
    ensures Params(s, ts, i) == Params(Param(s, ts[i], i), ts, i + 1)
  {
    assert ts[i..] == [ts[i]] + ts[i + 1..];
  }

  /** The session right after `new kernel` and the header lines
      (trusimd.cpp:510-520). */
  function Header(name: string): (r: Session)
    ensures Dense(r)
  {
    var s0 := Session(name, {}, [], "", "", 0, map[], "", "", 0, [], [], [], -1, 0);
    var s1 := Print(s0, IRVec, Spell(IrVecDefineTpl()), [S(name)]);
    var s2 := Print(s1, IRSca, Spell(IrScaDefineTpl()), [S(name)]).(irIndent := 2);
    Print(Print(s2, CU, Spell(CuDefineTpl()), [S(name)]), CL, Spell(ClDefineTpl()), [S(name)])
  }

  /** The arguments, then the global index variable (trusimd.cpp:521-549),
      after the header h. */
  function OpenedAfter(h: Session, ts: seq<Type>): (r: Session)
    requires Dense(h) && NoType in ts
    ensures Dense(r) && 0 <= r.globalIndexVar < |r.vars|
  {
    assert ts[0..] == ts;
    var s1 := Params(h, ts, 0);
    var (s2, g) := Pick(s1, Int64);
    s2.(expr := s2.expr[g := "v" + IntToString(g)], globalIndexVar := g)
  }

  /** Header, arguments and global index. */
  function Opened(name: string, ts: seq<Type>): (r: Session)
    requires NoType in ts
    ensures Dense(r) && 0 <= r.globalIndexVar < |r.vars|
  {
    OpenedAfter(Header(name), ts)
  }

  /** The loop prologues, with the placeholder of `%ipn` recorded where it
      is written. */
  function Prologues(s: Session): (r: Session) {
    LoopHeaders(s, s.globalIndexVar)
  }

  /** The loop headers over the global index g. */
  function LoopHeaders(s: Session, g: int): (r: Session) {
    var s3 := PrintMarked(s, IrVecPrologueHead(), [V(g), V(g)], IrVecPrologueTail());
    var s4 := Print(s3, IRSca, Spell(IrScaPrologue()), [V(g), V(g)]);
    CBoth(s4, CuPrologue(), ClPrologue(), [V(g), V(g)]).(irIndent := 2, cIndent := 2)
  }

  /** One template printed to the CUDA buffer and another to the OpenCL
      buffer. */
  function CBoth(s: Session, cu: seq<Tok>, cl: seq<Tok>, args: seq<Arg>): (r: Session)
    ensures r == s.(cuda := r.cuda, opencl := r.opencl)
  {
    Print(Print(s, CU, Spell(cu), args), CL, Spell(cl), args)
  }

  /** Prints head, records the vector-IR buffer's length as the next
      offset to patch, then prints tail, all to the vector IR. */
  function PrintMarked(s: Session, head: seq<Tok>, args: seq<Arg>, tail: seq<Tok>): (r: Session)
    ensures r == s.(irVec := r.irVec, typePos := r.typePos)
  {
    var s1 := Print(s, IRVec, Spell(head), args);
    var s2 := s1.(typePos := s1.typePos + [|s1.irVec|]);
    Print(s2, IRVec, Spell(tail), [])
  }

  /** trusimd_create_kernel_ap (trusimd.cpp:505-594), corrected: the CUDA
      prologue's `blockDim` is literal text, and the recorded offset is the
      one of the placeholder the prologue writes. */
  function Create(name: string, ts: seq<Type>): (r: Session)
    requires NoType in ts
  {
    Prologues(Opened(name, ts))
  }

  /** The prologues as the source writes them: one print of the whole
      vector-IR prologue, then the offset of the first placeholder in the
      buffer, then the CUDA prologue whose `blockDim` holds a directive. */
  function ProloguesAsWritten(s: Session): (r: Session) {
    LoopHeadersAsWritten(s, s.globalIndexVar)
  }

  function LoopHeadersAsWritten(s: Session, g: int): (r: Session) {
    var s1 := Print(s, IRVec, Spell(IrVecPrologueAsWritten()), [V(g), V(g)]);
    var s2 := Print(s1, IRSca, Spell(IrScaPrologue()), [V(g), V(g)]);
    var s3 := s2.(typePos := s2.typePos + [Find(s2.irVec, Placeholder)]);
    CBoth(s3, CuPrologueAsWritten(), ClPrologue(), [V(g), V(g)]).(irIndent := 2, cIndent := 2)
  }

  /** trusimd_create_kernel_ap as written. */
  function CreateAsWritten(name: string, ts: seq<Type>): (r: Session)
    requires NoType in ts
  {
    ProloguesAsWritten(Opened(name, ts))
  }

  // ---------------------------------------------------------------------
  // trusimd_end_kernel and the getters

  /** trusimd_end_kernel (trusimd.cpp:604-623): no guard of any kind. */
  function End(s: Session): (r: Session) {
    Epilogues(s, s.globalIndexVar)
  }

  /** The loop exits and closing braces, for the global index g. */
  function Epilogues(s: Session, g: int): (r: Session) {
    var s1 := s.(irIndent := 0, cIndent := 0);
    var s2 := Print(s1, IRVec, Spell(IrVecEpilogue()), []);
    var s3 := Print(s2, IRSca, Spell(IrScaEpilogue()), [V(g)]);
    CPair(s3, CEpilogue(), [])
  }

  /** trusimd_nb_kernel_args (trusimd.cpp:627). */
  function NbArgs(s: Session): int {
    |s.args|
  }

  /** trusimd_get_kernel_arg (trusimd.cpp:629-631): no bounds check; an
      index outside the list is undefined behaviour, excluded here. */
  function GetArg(s: Session, i: int): int
    requires 0 <= i < |s.argsVars|
  {
    s.argsVars[i]
  }

  /** trusimd_get_global_id (trusimd.cpp:835). */
  function GetGlobalId(s: Session): int {
    s.globalIndexVar
  }

  // =====================================================================
  // What the builders keep and what they change.

  /** The session invariant: a dense variable table, every type_pos entry
      pointing at a placeholder of the vector IR, one id per argument, and
      argument and global index ids that name variables. */
  predicate Wf(s: Session) {
    Dense(s) && MarksIn(s.irVec, s.typePos, 0) &&
    |s.argsVars| == |s.args| &&
    (forall i :: 0 <= i < |s.argsVars| ==> 0 <= s.argsVars[i] < |s.vars|) &&
    (forall u :: u in s.userVars ==> 0 <= u < |s.vars|) &&
    0 <= s.globalIndexVar < |s.vars|
  }

  /** print only appends: the chosen buffer gains exactly what the format
      writes, type_pos gains the vector IR's marks, and nothing else
      changes. */
  lemma PrintAppends(s: Session, lang: Lang, fmt: string, args: seq<Arg>)
    ensures var e := Emit(lang, fmt, args, Indentation(s, lang), |Buffer(s, lang)|);
      var r := Print(s, lang, fmt, args);
      Buffer(r, lang) == Buffer(s, lang) + e.text &&
      (forall other :: other != lang ==> Buffer(r, other) == Buffer(s, other)) &&
      r.typePos == s.typePos + (if lang == IRVec then e.marks else []) &&
      r == s.(irVec := r.irVec, irSca := r.irSca, cuda := r.cuda, opencl := r.opencl, typePos := r.typePos)
  {
  }

  /** Every offset type_pos holds still points at a placeholder after a
      print: old ones because the buffer only grows, new ones because print
      records the offset of each placeholder it writes. */
  lemma PrintKeepsMarks(s: Session, lang: Lang, fmt: string, args: seq<Arg>)
    requires MarksIn(s.irVec, s.typePos, 0)
    ensures var r := Print(s, lang, fmt, args); MarksIn(r.irVec, r.typePos, 0)
  {
    var e := Emit(lang, fmt, args, Indentation(s, lang), |Buffer(s, lang)|);
    EmitMarks(lang, fmt, args, Indentation(s, lang), |Buffer(s, lang)|, e);
    if lang == IRVec {
      MarksConcat(s.irVec, s.typePos, e.text, e.marks, 0);
    }
  }

  /** What an IR-only step keeps: the C side, the expressions, the user
      variables and the argument bookkeeping; the IR buffers, type_pos and
      the variable table only grow, and type_pos stays valid. */
  predicate IrStep(s: Session, r: Session) {
    r.name == s.name && r.userVars == s.userVars && r.irIndent == s.irIndent &&
    r.expr == s.expr && r.cuda == s.cuda && r.opencl == s.opencl && r.cIndent == s.cIndent &&
    r.args == s.args && r.argsVars == s.argsVars && r.globalIndexVar == s.globalIndexVar &&
    s.irVec <= r.irVec && s.irSca <= r.irSca && s.typePos <= r.typePos && s.vars <= r.vars &&
    Dense(r) && (MarksIn(s.irVec, s.typePos, 0) ==> MarksIn(r.irVec, r.typePos, 0))
  }

  lemma IrStepTrans(a: Session, b: Session, c: Session)
    requires IrStep(a, b) && IrStep(b, c)
    ensures IrStep(a, c)
  {
  }

  lemma PrintIrStep(s: Session, lang: Lang, fmt: string, args: seq<Arg>)
    requires IsIr(lang) && Dense(s)
    ensures IrStep(s, Print(s, lang, fmt, args))
  {
    if MarksIn(s.irVec, s.typePos, 0) {
      PrintKeepsMarks(s, lang, fmt, args);
    }
  }

  lemma PickIrStep(s: Session, t: Type)
    requires Dense(s)
    ensures IrStep(s, Pick(s, t).0)
  {
  }

  lemma NeedIrStep(s: Session, x: int)
    requires Dense(s) && 0 <= x < |s.vars|
    ensures IrStep(s, Need(s, x).0)
  {
    if x in s.userVars {
      var t := s.vars[x];
      var (s1, nv) := Pick(s, t);
      PickIrStep(s, t);
      IrPairStep(s1, ReloadTpl(), [V(nv), T(t), T(t), V(x)]);
      IrStepTrans(s, s1, Need(s, x).0);
    }
  }

  /** need_ir_var: an id that is not a user variable comes back unchanged
      with the session untouched; a user variable is reloaded into the next
      id, of its own type. Either way only the IR side changes. */
  lemma NeedSpec(s: Session, x: int)
    requires Dense(s) && 0 <= x < |s.vars|
    ensures var (r, v) := Need(s, x);
      IrStep(s, r) &&
      (x !in s.userVars ==> r == s && v == x) &&
      (x in s.userVars ==> v == |s.vars| && r.vars == s.vars + [s.vars[x]])
  {
    NeedIrStep(s, x);
  }

  lemma WfIrStep(s: Session, r: Session)
    requires Wf(s) && IrStep(s, r)
    ensures Wf(r)
  {
  }

  /** The number of IR reloads need_ir_var issues for x. */
  function Loads(s: Session, x: int): nat {
    if x in s.userVars then 1 else 0
  }

  lemma NeedCount(s: Session, x: int)
    requires Dense(s) && 0 <= x < |s.vars|
    ensures |Need(s, x).0.vars| == |s.vars| + Loads(s, x)
    ensures Need(s, x).0.userVars == s.userVars
  {
  }

  lemma BinOpIrSpec(s: Session, op: BinOp, l: int, r: int)
    requires Dense(s) && 0 <= l < |s.vars| && 0 <= r < |s.vars|
    ensures var (s1, nv) := BinOpIr(s, op, l, r);
      IrStep(s, s1) && nv == |s1.vars| - 1 && s1.vars[nv] == s.vars[l] &&
      |s1.vars| == |s.vars| + 1 + Loads(s, l) + Loads(s, r)
  {
    var lt := s.vars[l];
    var (s1, vl) := Need(s, l);
    var (s2, vr) := Need(s1, r);
    var (s3, nv) := Pick(s2, lt);
    var args := [V(nv), S(IrOp(op, lt)), T(lt), V(vl), V(vr)];
    NeedIrStep(s, l);
    NeedCount(s, l);
    NeedIrStep(s1, r);
    NeedCount(s1, r);
    PickIrStep(s2, lt);
    IrPairStep(s3, BinOpTpl(), args);
    IrStepTrans(s, s1, s2);
    IrStepTrans(s, s2, s3);
    IrStepTrans(s, s3, BinOpIr(s, op, l, r).0);
  }

  /** trusimd_binop fails with ETYPE exactly when the type rule rejects the
      operands, and then nothing has changed. */
  lemma BinOpRejects(s: Session, op: BinOp, l: int, r: int)
    requires Dense(s) && 0 <= l < |s.vars| && 0 <= r < |s.vars|
    ensures BinOp(s, op, l, r).1 == Err(ETYPE) <==> !TypeOk(op, s.vars[l], s.vars[r])
    ensures !TypeOk(op, s.vars[l], s.vars[r]) ==> BinOp(s, op, l, r).0 == s
    ensures TypeOk(op, s.vars[l], s.vars[r]) ==> BinOp(s, op, l, r).1.Ok?
  {
  }

  /** A successful trusimd_binop: the result is the newest id, of the left
      operand's type, after one reload per user-variable operand; its C
      expression is the parenthesised infix of the operands' expressions;
      no C text is written; the invariant holds. */
  lemma BinOpSpec(s: Session, op: BinOp, l: int, r: int)
    requires Wf(s) && 0 <= l < |s.vars| && 0 <= r < |s.vars| && TypeOk(op, s.vars[l], s.vars[r])
    ensures var (s1, res) := BinOp(s, op, l, r);
      res.Ok? && res.value == |s1.vars| - 1 && |s.vars| <= res.value &&
      s1.vars[res.value] == s.vars[l] && s.vars <= s1.vars &&
      |s1.vars| == |s.vars| + 1 + Loads(s, l) + Loads(s, r) &&
      s1.cuda == s.cuda && s1.opencl == s.opencl && s1.userVars == s.userVars &&
      s1.expr == Touch(Touch(s.expr, l), r)[res.value := "(" + ExprAt(s.expr, l) + COp(op, s.vars[l]) + ExprAt(s.expr, r) + ")"] &&
      s1.globalIndexVar == s.globalIndexVar && s1.cIndent == s.cIndent && s1.args == s.args && s1.argsVars == s.argsVars &&
      Wf(s1)
  {
    BinOpIrSpec(s, op, l, r);
    WfIrStep(s, BinOpIr(s, op, l, r).0);
  }

  /** A print to any dialect but the vector IR appends the template's text
      to that dialect's buffer and changes nothing else. */
  lemma PrintText(s: Session, lang: Lang, toks: seq<Tok>, args: seq<Arg>)
    requires lang != IRVec && WellFormed(toks)
    ensures var r := Print(s, lang, Spell(toks), args);
      Buffer(r, lang) == Buffer(s, lang) + ToksText(lang, toks, 0, args, Indentation(s, lang)) &&
      r == WithBuffer(s, lang, Buffer(r, lang))
  {
    SpellText(lang, toks, args, Indentation(s, lang), |Buffer(s, lang)|);
  }

  lemma IrPairStep(s: Session, toks: seq<Tok>, args: seq<Arg>)
    requires Dense(s)
    ensures IrStep(s, IrPair(s, toks, args))
  {
    PrintIrStep(s, IRVec, Spell(toks), args);
    PrintIrStep(Print(s, IRVec, Spell(toks), args), IRSca, Spell(toks), args);
  }

  lemma CPairText(s: Session, toks: seq<Tok>, args: seq<Arg>)
    requires WellFormed(toks)
    ensures CPair(s, toks, args).cuda == s.cuda + ToksText(CU, toks, 0, args, s.cIndent)
    ensures CPair(s, toks, args).opencl == s.opencl + ToksText(CL, toks, 0, args, s.cIndent)
  {
    PrintText(s, CU, toks, args);
    PrintText(Print(s, CU, Spell(toks), args), CL, toks, args);
  }

  /** CPairText with the two lines named. */
  lemma CLines(s: Session, toks: seq<Tok>, args: seq<Arg>, cu: string, cl: string)
    requires WellFormed(toks)
    requires ToksText(CU, toks, 0, args, s.cIndent) == cu && ToksText(CL, toks, 0, args, s.cIndent) == cl
    ensures CPair(s, toks, args).cuda == s.cuda + cu && CPair(s, toks, args).opencl == s.opencl + cl
  {
    CPairText(s, toks, args);
  }

  /** The declaration line of trusimd_var, in both C dialects. */
  lemma DeclLines(s: Session, t: Type, nv: int)
    ensures var r := CPair(s, DeclTpl(), [T(t), V(nv)]);
      r.cuda == s.cuda + (Repeat(' ', s.cIndent) + (CText(t) + (" " + (VarRef(CU, nv) + ";\n")))) &&
      r.opencl == s.opencl + (Repeat(' ', s.cIndent) + (CText(t) + (" " + (VarRef(CL, nv) + ";\n"))))
  {
    DeclText(CU, t, nv, s.cIndent);
    DeclText(CL, t, nv, s.cIndent);
    CLines(s, DeclTpl(), [T(t), V(nv)], Repeat(' ', s.cIndent) + (CText(t) + (" " + (VarRef(CU, nv) + ";\n"))),
      Repeat(' ', s.cIndent) + (CText(t) + (" " + (VarRef(CL, nv) + ";\n"))));
  }

  /** The IR half of trusimd_var: a fresh id, now a user variable. */
  lemma NewVarIr(s: Session, t: Type)
    requires Wf(s)
    ensures var (s1, nv) := Pick(s, t);
      var s3 := IrPair(s1.(userVars := s1.userVars + {nv}), AllocaTpl(), [V(nv), T(t)]);
      nv == |s.vars| && nv !in s.userVars && s3.vars == s.vars + [t] && Wf(s3) &&
      s3.userVars == s.userVars + {nv} && s.irVec <= s3.irVec && s.irSca <= s3.irSca
  {
    var (s1, nv) := Pick(s, t);
    var s2 := s1.(userVars := s1.userVars + {nv});
    assert Wf(s2);
    IrPairStep(s2, AllocaTpl(), [V(nv), T(t)]);
    WfIrStep(s2, IrPair(s2, AllocaTpl(), [V(nv), T(t)]));
  }

  /** trusimd_var: a fresh user variable of the given type, declared in
      both C dialects at the current indentation, whose C expression is its
      own name; the IR only grows. */
  lemma NewVarSpec(s: Session, t: Type)
    requires Wf(s)
    ensures var (r, nv) := NewVar(s, t);
      nv == |s.vars| && nv !in s.userVars && r.vars == s.vars + [t] &&
      r.userVars == s.userVars + {nv} && r.expr == s.expr[nv := VarRef(CU, nv)] &&
      r.cuda == s.cuda + (Repeat(' ', s.cIndent) + (CText(t) + (" " + (VarRef(CU, nv) + ";\n")))) &&
      r.opencl == s.opencl + (Repeat(' ', s.cIndent) + (CText(t) + (" " + (VarRef(CL, nv) + ";\n")))) &&
      s.irVec <= r.irVec && s.irSca <= r.irSca && r.args == s.args && r.argsVars == s.argsVars &&
      r.globalIndexVar == s.globalIndexVar && Wf(r)
  {
    var (s1, nv) := Pick(s, t);
    var s3 := IrPair(s1.(userVars := s1.userVars + {nv}), AllocaTpl(), [V(nv), T(t)]);
    NewVarIr(s, t);
    var s4 := CPair(s3, DeclTpl(), [T(t), V(nv)]);
    DeclLines(s3, t, nv);
    assert NewVar(s, t) == (s4.(expr := s4.expr[nv := VarRef(CU, nv)]), nv);
  }

  /** trusimd_assign fails with ETYPE exactly when the two types differ,
      and then nothing has changed. */
  lemma AssignRejects(s: Session, l: int, r: int)
    requires Dense(s) && 0 <= l < |s.vars| && 0 <= r < |s.vars|
    ensures Assign(s, l, r).1 == Err(ETYPE) <==> s.vars[l] != s.vars[r]
    ensures s.vars[l] != s.vars[r] ==> Assign(s, l, r).0 == s
    ensures s.vars[l] == s.vars[r] ==> Assign(s, l, r).1 == Ok(0)
  {
  }

  /** The assignment line of trusimd_assign, in both C dialects. */
  lemma AssignLines(s: Session, l: int, e: string)
    ensures var r := CPair(s, AssignCTpl(), [V(l), S(e)]);
      r.cuda == s.cuda + (Repeat(' ', s.cIndent) + (VarRef(CU, l) + (" = " + (e + ";\n")))) &&
      r.opencl == s.opencl + (Repeat(' ', s.cIndent) + (VarRef(CL, l) + (" = " + (e + ";\n"))))
  {
    AssignCText(CU, l, e, s.cIndent);
    AssignCText(CL, l, e, s.cIndent);
    CLines(s, AssignCTpl(), [V(l), S(e)], Repeat(' ', s.cIndent) + (VarRef(CU, l) + (" = " + (e + ";\n"))),
      Repeat(' ', s.cIndent) + (VarRef(CL, l) + (" = " + (e + ";\n"))));
  }

  /** A successful trusimd_assign: no new id; both C dialects gain the line
      `v<l> = <expression of r>;`; the IR only grows. */
  lemma AssignSpec(s: Session, l: int, r: int)
    requires Wf(s) && 0 <= l < |s.vars| && 0 <= r < |s.vars| && s.vars[l] == s.vars[r]
    ensures var (s1, res) := Assign(s, l, r);
      res == Ok(0) && s1.vars == s.vars && s1.userVars == s.userVars &&
      s1.expr == Touch(s.expr, r) &&
      s1.cuda == s.cuda + (Repeat(' ', s.cIndent) + (VarRef(CU, l) + (" = " + (ExprAt(s.expr, r) + ";\n")))) &&
      s1.opencl == s.opencl + (Repeat(' ', s.cIndent) + (VarRef(CL, l) + (" = " + (ExprAt(s.expr, r) + ";\n")))) &&
      s.irVec <= s1.irVec && s.irSca <= s1.irSca && Wf(s1)
  {
    var t := s.vars[l];
    IrPairStep(s, StoreTpl(), [T(t), V(r), T(t), V(l)]);
    var s1 := IrPair(s, StoreTpl(), [T(t), V(r), T(t), V(l)]);
    AssignLines(s1.(expr := Touch(s1.expr, r)), l, ExprAt(s.expr, r));
  }

  lemma CastIrStep(s: Session, t: Type, tmp: int, vecT: Type)
    requires Dense(s)
    ensures var (r, tmp2) := Cast(s, t, tmp, vecT);
      IrStep(s, r) && tmp2 == |s.vars| && r.vars == s.vars + [vecT]
  {
    var (s1, tmp2) := Pick(s, vecT);
    PickIrStep(s, vecT);
    PrintIrStep(s1, IRVec, Spell(BitcastTpl()), [V(tmp2), T(t), V(tmp), T(vecT)]);
    IrStepTrans(s, s1, Cast(s, t, tmp, vecT).0);
  }

  lemma VecAddressIrStep(s: Session, t: Type, vecT: Type, tmp: int, gep: seq<Arg>)
    requires Dense(s)
    ensures IrStep(s, VecAddress(s, t, vecT, tmp, gep).0)
  {
    var s4 := Print(s, IRVec, Spell(GepTpl()), gep);
    PrintIrStep(s, IRVec, Spell(GepTpl()), gep);
    if t != vecT {
      CastIrStep(s4, t, tmp, vecT);
      IrStepTrans(s, s4, Cast(s4, t, tmp, vecT).0);
    }
  }

  /** The instructions of trusimd_load after the address: the load into a
      fresh id of the element type, then the scalar IR's address and load. */
  lemma LoadTailIrStep(s5: Session, vecT: Type, tmp2: int, gep: seq<Arg>, t: Type, tmp: int)
    requires Dense(s5)
    ensures var (s6, nv) := Pick(s5, vecT);
      var s7 := Print(s6, IRVec, Spell(LoadTpl()), [V(nv), T(vecT), T(vecT), V(tmp2)]);
      var s8 := Print(s7, IRSca, Spell(GepTpl()), gep);
      var s9 := Print(s8, IRSca, Spell(LoadTpl()), [V(nv), T(t), T(t), V(tmp)]);
      IrStep(s5, s9) && nv == |s9.vars| - 1 && s9.vars[nv] == vecT
  {
    var (s6, nv) := Pick(s5, vecT);
    PickIrStep(s5, vecT);
    var s7 := Print(s6, IRVec, Spell(LoadTpl()), [V(nv), T(vecT), T(vecT), V(tmp2)]);
    PrintIrStep(s6, IRVec, Spell(LoadTpl()), [V(nv), T(vecT), T(vecT), V(tmp2)]);
    IrStepTrans(s5, s6, s7);
    var s8 := Print(s7, IRSca, Spell(GepTpl()), gep);
    PrintIrStep(s7, IRSca, Spell(GepTpl()), gep);
    IrStepTrans(s5, s7, s8);
    PrintIrStep(s8, IRSca, Spell(LoadTpl()), [V(nv), T(t), T(t), V(tmp)]);
    IrStepTrans(s5, s8, Print(s8, IRSca, Spell(LoadTpl()), [V(nv), T(t), T(t), V(tmp)]));
  }

  /** The IR half of trusimd_load only grows the IR, and its result is the
      newest id, of the element type (promoted when the offset is the
      global index). */
  lemma LoadIrSpec(s: Session, ptr: int, off: int)
    requires Dense(s) && 0 <= ptr < |s.vars| && 0 <= off < |s.vars|
    ensures var (r, nv) := LoadIr(s, ptr, off);
      IrStep(s, r) && nv == |r.vars| - 1 && r.vars[nv] == Elem(s, ptr, off) && |s.vars| < |r.vars|
  {
    var t := RemovePointer(s.vars[ptr]);
    var vecT := Elem(s, ptr, off);
    var (s1, vptr) := Need(s, ptr);
    NeedIrStep(s, ptr);
    var (s2, tmp) := Pick(s1, vecT);
    PickIrStep(s1, vecT);
    var (s3, voff) := Need(s2, off);
    NeedIrStep(s2, off);
    IrStepTrans(s, s1, s2);
    IrStepTrans(s, s2, s3);
    var gep := GepArgs(tmp, t, vptr, s.vars[off], voff);
    var (s5, tmp2) := VecAddress(s3, t, vecT, tmp, gep);
    VecAddressIrStep(s3, t, vecT, tmp, gep);
    IrStepTrans(s, s3, s5);
    LoadTailIrStep(s5, vecT, tmp2, gep, t, tmp);
    IrStepTrans(s, s5, LoadIr(s, ptr, off).0);
  }

  /** trusimd_load fails with ETYPE exactly when the offset is not an
      integer, and then nothing has changed; the pointer is not checked. */
  lemma LoadRejects(s: Session, ptr: int, off: int)
    requires Dense(s) && 0 <= ptr < |s.vars| && 0 <= off < |s.vars|
    ensures Load(s, ptr, off).1 == Err(ETYPE) <==> !IsInt(s.vars[off])
    ensures !IsInt(s.vars[off]) ==> Load(s, ptr, off).0 == s
    ensures IsInt(s.vars[off]) ==> Load(s, ptr, off).1.Ok?
  {
  }

  /** A successful trusimd_load: a fresh id of the element type, whose C
      expression is `<pointer>[<offset>]`; no C text is written. */
  lemma LoadSpec(s: Session, ptr: int, off: int)
    requires Wf(s) && 0 <= ptr < |s.vars| && 0 <= off < |s.vars| && IsInt(s.vars[off])
    ensures var (s1, res) := Load(s, ptr, off);
      res.Ok? && res.value == |s1.vars| - 1 && |s.vars| <= res.value &&
      s1.vars[res.value] == Elem(s, ptr, off) && s.vars <= s1.vars &&
      s1.cuda == s.cuda && s1.opencl == s.opencl && s1.userVars == s.userVars &&
      s1.expr == Touch(Touch(s.expr, ptr), off)[res.value := ExprAt(s.expr, ptr) + "[" + ExprAt(s.expr, off) + "]"] &&
      s1.globalIndexVar == s.globalIndexVar && s1.cIndent == s.cIndent && s1.args == s.args && s1.argsVars == s.argsVars &&
      Wf(s1)
  {
    LoadIrSpec(s, ptr, off);
    WfIrStep(s, LoadIr(s, ptr, off).0);
  }

  /** The IR half of trusimd_store only grows the IR. */
  lemma StoreIrSpec(s: Session, ptr: int, off: int, v: int)
    requires Dense(s) && 0 <= ptr < |s.vars| && 0 <= off < |s.vars| && 0 <= v < |s.vars|
    ensures IrStep(s, StoreIr(s, ptr, off, v))
  {
    var ptrT := s.vars[ptr];
    var t := RemovePointer(ptrT);
    var vecT := Elem(s, ptr, off);
    var offT := s.vars[off];
    var (s1, tmp) := Pick(s, ptrT);
    PickIrStep(s, ptrT);
    var (s2, vptr) := Need(s1, ptr);
    NeedIrStep(s1, ptr);
    var (s3, voff) := Need(s2, off);
    NeedIrStep(s2, off);
    IrStepTrans(s, s1, s2);
    IrStepTrans(s, s2, s3);
    var gep := GepArgs(tmp, t, vptr, offT, voff);
    var (s5, tmp2) := VecAddress(s3, t, vecT, tmp, gep);
    VecAddressIrStep(s3, t, vecT, tmp, gep);
    IrStepTrans(s, s3, s5);
    var (s6, vv) := Need(s5, v);
    NeedIrStep(s5, v);
    IrStepTrans(s, s5, s6);
    var s7 := Print(s6, IRVec, Spell(StoreTpl()), [T(vecT), V(vv), T(vecT), V(tmp2)]);
    PrintIrStep(s6, IRVec, Spell(StoreTpl()), [T(vecT), V(vv), T(vecT), V(tmp2)]);
    IrStepTrans(s, s6, s7);
    var s8 := Print(s7, IRSca, Spell(GepTpl()), gep);
    PrintIrStep(s7, IRSca, Spell(GepTpl()), gep);
    IrStepTrans(s, s7, s8);
    PrintIrStep(s8, IRSca, Spell(StoreTpl()), [T(t), V(vv), T(t), V(tmp)]);
    IrStepTrans(s, s8, StoreIr(s, ptr, off, v));
  }

  /** trusimd_store fails with ETYPE exactly when its type check does, and
      then nothing has changed. */
  lemma StoreRejects(s: Session, ptr: int, off: int, v: int)
    requires Dense(s) && 0 <= ptr < |s.vars| && 0 <= off < |s.vars| && 0 <= v < |s.vars|
    ensures Store(s, ptr, off, v).1 == Err(ETYPE) <==> !StoreOk(s, ptr, off, v)
    ensures !StoreOk(s, ptr, off, v) ==> Store(s, ptr, off, v).0 == s
    ensures StoreOk(s, ptr, off, v) ==> Store(s, ptr, off, v).1 == Ok(0)
  {
  }

  /** The indexed assignment line of trusimd_store, in both C dialects. */
  lemma StoreLines(s: Session, a: string, b: string, c: string)
    ensures var r := CPair(s, StoreCTpl(), [S(a), S(b), S(c)]);
      r.cuda == s.cuda + (Repeat(' ', s.cIndent) + (a + ("[" + (b + ("] = " + (c + ";\n\n")))))) &&
      r.opencl == s.opencl + (Repeat(' ', s.cIndent) + (a + ("[" + (b + ("] = " + (c + ";\n\n"))))))
  {
    StoreCText(CU, a, b, c, s.cIndent);
    StoreCText(CL, a, b, c, s.cIndent);
    CLines(s, StoreCTpl(), [S(a), S(b), S(c)], Repeat(' ', s.cIndent) + (a + ("[" + (b + ("] = " + (c + ";\n\n"))))),
      Repeat(' ', s.cIndent) + (a + ("[" + (b + ("] = " + (c + ";\n\n"))))));
  }

  /** A successful trusimd_store: no new C expression; both C dialects gain
      `<pointer>[<offset>] = <value>;`; the IR only grows. */
  lemma StoreSpec(s: Session, ptr: int, off: int, v: int)
    requires Wf(s) && 0 <= ptr < |s.vars| && 0 <= off < |s.vars| && 0 <= v < |s.vars| && StoreOk(s, ptr, off, v)
    ensures var (s1, res) := Store(s, ptr, off, v);
      var line := ExprAt(s.expr, ptr) + ("[" + (ExprAt(s.expr, off) + ("] = " + (ExprAt(s.expr, v) + ";\n\n"))));
      res == Ok(0) && s.vars <= s1.vars && s1.userVars == s.userVars &&
      s1.expr == Touch(Touch(Touch(s.expr, ptr), off), v) &&
      s1.cuda == s.cuda + (Repeat(' ', s.cIndent) + line) && s1.opencl == s.opencl + (Repeat(' ', s.cIndent) + line) &&
      s.irVec <= s1.irVec && s.irSca <= s1.irSca && Wf(s1)
  {
    StoreIrSpec(s, ptr, off, v);
    var s1 := StoreIr(s, ptr, off, v);
    WfIrStep(s, s1);
    var s2 := s1.(expr := Touch(Touch(Touch(s1.expr, ptr), off), v));
    StoreLines(s2, ExprAt(s.expr, ptr), ExprAt(s.expr, off), ExprAt(s.expr, v));
    assert Store(s, ptr, off, v) == (CPair(s2, StoreCTpl(), [S(ExprAt(s.expr, ptr)), S(ExprAt(s.expr, off)), S(ExprAt(s.expr, v))]), Ok(0));
  }

  // ---------------------------------------------------------------------
  // trusimd_create_kernel_ap

  lemma ParamIdsShape(s: Session, t: Type)
    requires Dense(s)
    ensures var r := ParamIds(s, t); var nv := |s.vars| + 2;
      r.args == s.args + [t] && r.argsVars == s.argsVars + [nv] && r.expr == s.expr[nv := VarRef(CU, nv)] &&
      r == s.(vars := r.vars, nextVar := r.nextVar, args := r.args, argsVars := r.argsVars, expr := r.expr)
  {
  }

  lemma ParamPrintsShape(s: Session, t: Type, i: int, a8: int, aT: int, nv: int)
    ensures var r := ParamPrints(s, t, i, a8, aT, nv);
      r == s.(irVec := r.irVec, irSca := r.irSca, cuda := r.cuda, opencl := r.opencl, typePos := r.typePos) &&
      (MarksIn(s.irVec, s.typePos, 0) ==> MarksIn(r.irVec, r.typePos, 0))
  {
    if MarksIn(s.irVec, s.typePos, 0) {
      var s6 := Print(s, IRVec, Spell(ParamTpl()), [T(t), V(nv)]);
      var s7 := Print(s6, IRSca, Spell(IrScaParamTpl()), [V(a8), D(8 * i), V(aT), V(a8), T(t), V(nv), T(t), T(t), V(aT)]);
      var s8 := Print(s7, CU, Spell(ParamTpl()), [T(t), V(nv)]);
      PrintKeepsMarks(s, IRVec, Spell(ParamTpl()), [T(t), V(nv)]);
      PrintKeepsMarks(s6, IRSca, Spell(IrScaParamTpl()), [V(a8), D(8 * i), V(aT), V(a8), T(t), V(nv), T(t), T(t), V(aT)]);
      PrintKeepsMarks(s7, CU, Spell(ParamTpl()), [T(t), V(nv)]);
      PrintKeepsMarks(s8, CL, Spell(ClParamTpl()), [T(t), V(nv)]);
    }
  }

  /** What one pass of the argument loop does: three ids (the byte address,
      the typed address and the argument itself), the argument recorded with
      its id, whose C expression is its name. */
  lemma ParamShape(s: Session, t: Type, i: int)
    requires Dense(s)
    ensures var r := Param(s, t, i); var nv := |s.vars| + 2;
      r.vars == s.vars + [Int8, t, t] && r.args == s.args + [t] && r.argsVars == s.argsVars + [nv] &&
      r.expr == s.expr[nv := VarRef(CU, nv)] && r.userVars == s.userVars &&
      r.globalIndexVar == s.globalIndexVar && r.irIndent == s.irIndent && r.cIndent == s.cIndent &&
      (MarksIn(s.irVec, s.typePos, 0) ==> MarksIn(r.irVec, r.typePos, 0))
  {
    var n := |s.vars|;
    ParamIdsShape(s, t);
    ParamPrintsShape(ParamIds(s, t), t, i, n, n + 1, n + 2);
  }

  /** The argument loop's invariant after k arguments: ids 3j, 3j+1 and
      3j+2 belong to argument j, the last one names it, and nothing else has
      been allocated. */
  predicate LaidOut(s: Session, ts: seq<Type>, k: nat) {
    Dense(s) && k <= |ts| && |s.vars| == 3 * k && s.args == ts[..k] && |s.argsVars| == k &&
    (forall j :: 0 <= j < k ==>
      s.argsVars[j] == 3 * j + 2 && s.vars[3 * j] == Int8 && s.vars[3 * j + 1] == ts[j] && s.vars[3 * j + 2] == ts[j] &&
      3 * j + 2 in s.expr && s.expr[3 * j + 2] == VarRef(CU, 3 * j + 2)) &&
    s.userVars == {} && MarksIn(s.irVec, s.typePos, 0) && s.globalIndexVar == 0 &&
    s.irIndent == 2 && s.cIndent == 0
  }

  /** The invariant's step, from the facts ParamShape states. */
  lemma LaidOutStep(s: Session, r: Session, ts: seq<Type>, k: nat)
    requires LaidOut(s, ts, k) && k < |ts|
    requires var t := ts[k]; var nv := |s.vars| + 2;
      r.vars == s.vars + [Int8, t, t] && r.args == s.args + [t] && r.argsVars == s.argsVars + [nv] &&
      r.expr == s.expr[nv := VarRef(CU, nv)] && r.userVars == s.userVars &&
      r.globalIndexVar == s.globalIndexVar && r.irIndent == s.irIndent && r.cIndent == s.cIndent &&
      MarksIn(r.irVec, r.typePos, 0) && Dense(r)
    ensures LaidOut(r, ts, k + 1)
  {
    assert ts[..k + 1] == ts[..k] + [ts[k]];
    forall j | 0 <= j < k + 1
      ensures r.argsVars[j] == 3 * j + 2 && r.vars[3 * j] == Int8 && r.vars[3 * j + 1] == ts[j] && r.vars[3 * j + 2] == ts[j] &&
        3 * j + 2 in r.expr && r.expr[3 * j + 2] == VarRef(CU, 3 * j + 2)
    {
      if j < k {
        assert r.argsVars[j] == s.argsVars[j];
        assert r.vars[3 * j] == s.vars[3 * j] && r.vars[3 * j + 1] == s.vars[3 * j + 1] && r.vars[3 * j + 2] == s.vars[3 * j + 2];
      }
    }
  }

  lemma ParamLaidOut(s: Session, ts: seq<Type>, k: nat)
    requires LaidOut(s, ts, k) && k < |ts|
    ensures LaidOut(Param(s, ts[k], k), ts, k + 1)
  {
    ParamShape(s, ts[k], k);
    LaidOutStep(s, Param(s, ts[k], k), ts, k);
  }

  lemma {:induction false} ParamsLaidOut(s: Session, ts: seq<Type>, i: nat)
    requires LaidOut(s, ts, i) && NoType in ts[i..]
    ensures LaidOut(Params(s, ts, i), ts, ParamCount(ts, i))
    decreases |ts| - i
  {
    if ts[i] != NoType {
      assert ts[i..] == [ts[i]] + ts[i + 1..];
      ParamLaidOut(s, ts, i);
      ParamsLaidOut(Param(s, ts[i], i), ts, i + 1);
    }
  }

  lemma HeaderLaidOut(name: string, ts: seq<Type>)
    ensures LaidOut(Header(name), ts, 0)
  {
    var s0 := Session(name, {}, [], "", "", 0, map[], "", "", 0, [], [], [], -1, 0);
    var s1 := Print(s0, IRVec, Spell(IrVecDefineTpl()), [S(name)]);
    var s2 := Print(s1, IRSca, Spell(IrScaDefineTpl()), [S(name)]).(irIndent := 2);
    var s3 := Print(s2, CU, Spell(CuDefineTpl()), [S(name)]);
    PrintKeepsMarks(s0, IRVec, Spell(IrVecDefineTpl()), [S(name)]);
    PrintKeepsMarks(s1, IRSca, Spell(IrScaDefineTpl()), [S(name)]);
    PrintKeepsMarks(s2, CU, Spell(CuDefineTpl()), [S(name)]);
    PrintKeepsMarks(s3, CL, Spell(ClDefineTpl()), [S(name)]);
    assert Header(name) == Print(s3, CL, Spell(ClDefineTpl()), [S(name)]);
  }

  /** After the argument loop and the global index: argument j is id 3j+2
      and the global index id 3m, of type int64, for the m arguments before
      the terminator. */
  predicate OpenedShape(s: Session, ts: seq<Type>, m: nat) {
    m < |ts| && Dense(s) && |s.vars| == 3 * m + 1 && s.args == ts[..m] && |s.argsVars| == m &&
    (forall j :: 0 <= j < m ==>
      s.argsVars[j] == 3 * j + 2 && s.vars[3 * j] == Int8 && s.vars[3 * j + 1] == ts[j] && s.vars[3 * j + 2] == ts[j] &&
      3 * j + 2 in s.expr && s.expr[3 * j + 2] == VarRef(CU, 3 * j + 2)) &&
    s.globalIndexVar == 3 * m && s.vars[3 * m] == Int64 && 3 * m in s.expr && s.expr[3 * m] == VarRef(CU, 3 * m) &&
    s.userVars == {} && Wf(s)
  }

  /** The global index step, from the facts Pick states. */
  lemma OpenedStep(s1: Session, r: Session, ts: seq<Type>, m: nat)
    requires LaidOut(s1, ts, m) && m < |ts|
    requires r.vars == s1.vars + [Int64] && r.globalIndexVar == 3 * m && r.expr == s1.expr[3 * m := VarRef(CU, 3 * m)] &&
      r.args == s1.args && r.argsVars == s1.argsVars && r.userVars == s1.userVars &&
      r.irVec == s1.irVec && r.typePos == s1.typePos && Dense(r)
    ensures OpenedShape(r, ts, m)
  {
    forall j | 0 <= j < m
      ensures r.argsVars[j] == 3 * j + 2 && r.vars[3 * j] == Int8 && r.vars[3 * j + 1] == ts[j] && r.vars[3 * j + 2] == ts[j] &&
        3 * j + 2 in r.expr && r.expr[3 * j + 2] == VarRef(CU, 3 * j + 2)
    {
      assert r.vars[3 * j] == s1.vars[3 * j] && r.vars[3 * j + 1] == s1.vars[3 * j + 1] && r.vars[3 * j + 2] == s1.vars[3 * j + 2];
    }
  }

  lemma OpenedAfterSpec(h: Session, ts: seq<Type>)
    requires LaidOut(h, ts, 0) && NoType in ts
    ensures OpenedShape(OpenedAfter(h, ts), ts, ParamCount(ts, 0))
  {
    assert ts[0..] == ts;
    ParamsLaidOut(h, ts, 0);
    OpenedStep(Params(h, ts, 0), OpenedAfter(h, ts), ts, ParamCount(ts, 0));
  }

  lemma OpenedSpec(name: string, ts: seq<Type>)
    requires NoType in ts
    ensures OpenedShape(Opened(name, ts), ts, ParamCount(ts, 0))
  {
    HeaderLaidOut(name, ts);
    OpenedAfterSpec(Header(name), ts);
  }

  /** A print's text with the line named, in any dialect. */
  lemma PrintLine(s: Session, lang: Lang, toks: seq<Tok>, args: seq<Arg>, line: string)
    requires WellFormed(toks) && ToksText(lang, toks, 0, args, Indentation(s, lang)) == line
    ensures Buffer(Print(s, lang, Spell(toks), args), lang) == Buffer(s, lang) + line
    ensures lang == IRSca ==> Print(s, lang, Spell(toks), args).irSca == s.irSca + line
    ensures lang == CU ==> Print(s, lang, Spell(toks), args).cuda == s.cuda + line
    ensures lang == CL ==> Print(s, lang, Spell(toks), args).opencl == s.opencl + line
  {
    SpellText(lang, toks, args, Indentation(s, lang), |Buffer(s, lang)|);
  }

  /** A print to the vector IR whose arguments hold no vector-mode type
      appends its line and records no mark. */
  lemma PrintNoMarks(s: Session, toks: seq<Tok>, args: seq<Arg>, line: string)
    requires WellFormed(toks) && Fits(Spell(toks), args) && VectorCount(args) == 0
    requires ToksText(IRVec, toks, 0, args, s.irIndent) == line
    ensures Print(s, IRVec, Spell(toks), args).irVec == s.irVec + line
    ensures Print(s, IRVec, Spell(toks), args).typePos == s.typePos
  {
    EmitMarkCount(Spell(toks), args, s.irIndent, |s.irVec|);
    PrintLine(s, IRVec, toks, args, line);
  }

  /** A print of a head, a mark at the end of the buffer, then a print of
      a tail: the two texts are appended and the mark is the head's end. */
  lemma PrintMarkedText(s: Session, head: seq<Tok>, args: seq<Arg>, headText: string, tail: seq<Tok>, tailText: string)
    requires WellFormed(head) && Fits(Spell(head), args) && VectorCount(args) == 0
    requires ToksText(IRVec, head, 0, args, s.irIndent) == headText
    requires WellFormed(tail) && Fits(Spell(tail), []) && ToksText(IRVec, tail, 0, [], s.irIndent) == tailText
    ensures PrintMarked(s, head, args, tail).irVec == s.irVec + headText + tailText
    ensures PrintMarked(s, head, args, tail).typePos == s.typePos + [|s.irVec + headText|]
  {
    var s1 := Print(s, IRVec, Spell(head), args);
    PrintNoMarks(s, head, args, headText);
    var s2 := s1.(typePos := s1.typePos + [|s1.irVec|]);
    assert VectorCount([]) == 0;
    PrintNoMarks(s2, tail, [], tailText);
    assert PrintMarked(s, head, args, tail) == Print(s2, IRVec, Spell(tail), []);
  }

  /** The vector-IR half of the prologues, for a loop index g: the
      recorded offset is the one where the placeholder of `%ipn` is
      written. */
  lemma VecPrologueSpec(s: Session, g: int)
    requires MarksIn(s.irVec, s.typePos, 0)
    ensures PrintMarked(s, IrVecPrologueHead(), [V(g), V(g)], IrVecPrologueTail()).irVec ==
      s.irVec + VecPrologueHeadText(g) + (Placeholder + VecLoopTest)
    ensures PrintMarked(s, IrVecPrologueHead(), [V(g), V(g)], IrVecPrologueTail()).typePos ==
      s.typePos + [|s.irVec + VecPrologueHeadText(g)|]
    ensures PlaceholderAt(PrintMarked(s, IrVecPrologueHead(), [V(g), V(g)], IrVecPrologueTail()).irVec,
      |s.irVec + VecPrologueHeadText(g)|)
    ensures var r := PrintMarked(s, IrVecPrologueHead(), [V(g), V(g)], IrVecPrologueTail());
      MarksIn(r.irVec, r.typePos, 0)
  {
    var head := VecPrologueHeadText(g);
    IrVecPrologueHeadFits(g);
    IrVecPrologueHeadText(g, s.irIndent);
    VectorCountTwoVars(g, g);
    IrVecPrologueTailFits();
    IrVecPrologueTailText(s.irIndent);
    PrintMarkedText(s, IrVecPrologueHead(), [V(g), V(g)], head, IrVecPrologueTail(), Placeholder + VecLoopTest);
    MarkAfterHead(s.irVec, s.typePos, head, Placeholder + VecLoopTest, |s.irVec + head|);
    PlaceholderAfter(s.irVec + head, Placeholder + VecLoopTest);
  }


  /** CBoth with the two lines named. */
  lemma CBothLines(s: Session, cu: seq<Tok>, cl: seq<Tok>, args: seq<Arg>, cuLine: string, clLine: string)
    requires WellFormed(cu) && ToksText(CU, cu, 0, args, s.cIndent) == cuLine
    requires WellFormed(cl) && ToksText(CL, cl, 0, args, s.cIndent) == clLine
    ensures CBoth(s, cu, cl, args).cuda == s.cuda + cuLine
    ensures CBoth(s, cu, cl, args).opencl == s.opencl + clLine
  {
    PrintLine(s, CU, cu, args, cuLine);
    PrintLine(Print(s, CU, Spell(cu), args), CL, cl, args, clLine);
  }

  /** The loop headers append the loop's opening to the scalar IR... */
  lemma LoopHeadersSca(s: Session, g: int)
    ensures LoopHeaders(s, g).irSca == s.irSca + ScaPrologueText(g)
  {
    var s3 := PrintMarked(s, IrVecPrologueHead(), [V(g), V(g)], IrVecPrologueTail());
    IrScaPrologueFits(g);
    IrScaPrologueText(g, Indentation(s3, IRSca));
    PrintLine(s3, IRSca, IrScaPrologue(), [V(g), V(g)], ScaPrologueText(g));
  }

  /** ...and to both C dialects. */
  lemma LoopHeadersC(s: Session, g: int)
    ensures LoopHeaders(s, g).cuda == s.cuda + CudaPrologueText(g)
    ensures LoopHeaders(s, g).opencl == s.opencl + OpenclPrologueText(g)
  {
    var s3 := PrintMarked(s, IrVecPrologueHead(), [V(g), V(g)], IrVecPrologueTail());
    var s4 := Print(s3, IRSca, Spell(IrScaPrologue()), [V(g), V(g)]);
    assert s4.cuda == s.cuda && s4.opencl == s.opencl && s4.cIndent == s.cIndent;
    CuPrologueFits(g);
    ClPrologueFits(g);
    CuPrologueText(g, s.cIndent);
    ClPrologueText(g, s.cIndent);
    CBothLines(s4, CuPrologue(), ClPrologue(), [V(g), V(g)], CudaPrologueText(g), OpenclPrologueText(g));
  }

  /** They leave the variables, expressions and arguments alone and set
      both indentations to one level. */
  lemma LoopHeadersFrame(s: Session, g: int)
    ensures var r := LoopHeaders(s, g);
      r == s.(irVec := r.irVec, irSca := r.irSca, typePos := r.typePos, cuda := r.cuda, opencl := r.opencl,
              irIndent := 2, cIndent := 2)
  {
  }

  /** trusimd_create_kernel_ap's prologues (trusimd.cpp:547-586), corrected:
      the vector IR gains its loop header with the `%ipn` placeholder, whose
      offset is the one recorded; the other dialects gain theirs; and the
      session stays well formed. */
  lemma ProloguesSpec(s: Session)
    requires Wf(s)
    ensures var g := s.globalIndexVar; var head := VecPrologueHeadText(g);
      Prologues(s).irVec == s.irVec + head + (Placeholder + VecLoopTest) &&
      Prologues(s).typePos == s.typePos + [|s.irVec + head|] &&
      PlaceholderAt(Prologues(s).irVec, |s.irVec + head|)
    ensures var g := s.globalIndexVar;
      Prologues(s).irSca == s.irSca + ScaPrologueText(g) &&
      Prologues(s).cuda == s.cuda + CudaPrologueText(g) &&
      Prologues(s).opencl == s.opencl + OpenclPrologueText(g)
    ensures Wf(Prologues(s))
  {
    var g := s.globalIndexVar;
    VecPrologueSpec(s, g);
    LoopHeadersSca(s, g);
    LoopHeadersC(s, g);
    LoopHeadersFrame(s, g);
  }

  /** trusimd_create_kernel_ap (trusimd.cpp:505-594), corrected: argument j
      is variable 3j + 2 and the global index is the next multiple of three;
      no variable is a user variable yet; every dialect is one level in; and
      the session is well formed. */
  lemma CreateSpec(name: string, ts: seq<Type>)
    requires NoType in ts
    ensures var r := Create(name, ts); var m := ParamCount(ts, 0);
      r.args == ts[..m] && |r.argsVars| == m && r.globalIndexVar == 3 * m &&
      |r.vars| == 3 * m + 1 && r.vars[3 * m] == Int64 && r.userVars == {} && r.irIndent == 2 && r.cIndent == 2
    ensures var r := Create(name, ts); var m := ParamCount(ts, 0);
      forall j :: 0 <= j < m ==> r.argsVars[j] == 3 * j + 2 && r.vars[3 * j + 2] == ts[j]
    ensures Wf(Create(name, ts))
  {
    var o := Opened(name, ts);
    OpenedSpec(name, ts);
    ProloguesSpec(o);
    LoopHeadersFrame(o, o.globalIndexVar);
  }

  /** The C names a new session starts with: each argument's expression is
      its variable's name, and so is the global index's. */
  lemma CreateExprs(name: string, ts: seq<Type>)
    requires NoType in ts
    ensures var r := Create(name, ts); var m := ParamCount(ts, 0);
      (forall j :: 0 <= j < |r.argsVars| ==> ExprAt(r.expr, r.argsVars[j]) == VarRef(CU, r.argsVars[j])) &&
      ExprAt(r.expr, r.globalIndexVar) == VarRef(CU, r.globalIndexVar)
  {
    var o := Opened(name, ts);
    OpenedSpec(name, ts);
    LoopHeadersFrame(o, o.globalIndexVar);
  }

  /** The loop headers it opens: the three other dialects end with theirs,
      and the last offset recorded is the one of the `%ipn` placeholder the
      vector-IR header has just written. */
  lemma CreateHeaders(name: string, ts: seq<Type>)
    requires NoType in ts
    ensures var r := Create(name, ts); var o := Opened(name, ts); var g := o.globalIndexVar;
      r.irSca == o.irSca + ScaPrologueText(g) &&
      r.cuda == o.cuda + CudaPrologueText(g) && r.opencl == o.opencl + OpenclPrologueText(g)
    ensures var r := Create(name, ts);
      |r.typePos| >= 1 && r.typePos[|r.typePos| - 1] == |r.irVec| - |Placeholder + VecLoopTest|
  {
    var o := Opened(name, ts);
    OpenedSpec(name, ts);
    ProloguesSpec(o);
  }

  // ---------------------------------------------------------------------
  // The prologues as written

  /** As written, the vector IR holds what its one print wrote, and the
      offset recorded after it is the first placeholder anywhere in the
      buffer. */
  lemma LoopHeadersAsWrittenFrame(s: Session, g: int)
    ensures var r := LoopHeadersAsWritten(s, g);
      var s1 := Print(s, IRVec, Spell(IrVecPrologueAsWritten()), [V(g), V(g)]);
      r.irVec == s1.irVec && r.typePos == s1.typePos + [Find(s1.irVec, Placeholder)] &&
      r == s.(irVec := r.irVec, irSca := r.irSca, typePos := r.typePos, cuda := r.cuda, opencl := r.opencl,
              irIndent := 2, cIndent := 2)
  {
  }

  /** The vector IR gets the same loop header either way... */
  lemma LoopHeadersAsWrittenVec(s: Session, g: int)
    ensures LoopHeadersAsWritten(s, g).irVec == s.irVec + VecPrologueHeadText(g) + (Placeholder + VecLoopTest)
    ensures var r := LoopHeadersAsWritten(s, g);
      r.typePos == s.typePos + [Find(r.irVec, Placeholder)]
  {
    IrVecPrologueAsWrittenFits(g);
    IrVecPrologueAsWrittenText(g, s.irIndent);
    VectorCountTwoVars(g, g);
    PrintNoMarks(s, IrVecPrologueAsWritten(), [V(g), V(g)], VecPrologueHeadText(g) + (Placeholder + VecLoopTest));
    AppendAssoc(s.irVec, VecPrologueHeadText(g), Placeholder + VecLoopTest);
    LoopHeadersAsWrittenFrame(s, g);
  }

  /** The scalar IR and OpenCL get the corrected text; CUDA gets `blockDim`
      with the index's number in place of its `D`. */
  lemma LoopHeadersAsWrittenText(s: Session, g: int)
    ensures LoopHeadersAsWritten(s, g).irSca == s.irSca + ScaPrologueText(g)
    ensures LoopHeadersAsWritten(s, g).cuda == s.cuda + CudaPrologueAsWrittenText(g)
    ensures LoopHeadersAsWritten(s, g).opencl == s.opencl + OpenclPrologueText(g)
  {
    var s1 := Print(s, IRVec, Spell(IrVecPrologueAsWritten()), [V(g), V(g)]);
    IrScaPrologueFits(g);
    IrScaPrologueText(g, Indentation(s1, IRSca));
    PrintLine(s1, IRSca, IrScaPrologue(), [V(g), V(g)], ScaPrologueText(g));
    var s2 := Print(s1, IRSca, Spell(IrScaPrologue()), [V(g), V(g)]);
    var s3 := s2.(typePos := s2.typePos + [Find(s2.irVec, Placeholder)]);
    CuPrologueAsWrittenMisfits(g);
    ClPrologueFits(g);
    CuPrologueAsWrittenText(g, s.cIndent);
    ClPrologueText(g, s.cIndent);
    CBothLines(s3, CuPrologueAsWritten(), ClPrologue(), [V(g), V(g)], CudaPrologueAsWrittenText(g), OpenclPrologueText(g));
  }
  /** The offset the source records after its prologue points before the
      prologue whenever type_pos already held an offset: find returns the
      first placeholder of the buffer, and an earlier one is there. */
  lemma LoopHeadersAsWrittenStaleMark(s: Session, g: int)
    requires MarksIn(s.irVec, s.typePos, 0) && |s.typePos| >= 1
    ensures var r := LoopHeadersAsWritten(s, g);
      |r.typePos| == |s.typePos| + 1 &&
      0 <= r.typePos[|s.typePos|] <= s.typePos[0] && r.typePos[|s.typePos|] + |Placeholder| <= |s.irVec|
  {
    LoopHeadersAsWrittenVec(s, g);
    MarksInEach(s.irVec, s.typePos, 0, 0);
    AppendAssoc(s.irVec, VecPrologueHeadText(g), Placeholder + VecLoopTest);
    FindInOld(s.irVec, VecPrologueHeadText(g) + (Placeholder + VecLoopTest), s.typePos[0]);
  }

  /** A parameter of vector-mode type writes a placeholder to the vector IR
      and records it; no parameter takes an offset away. */
  lemma ParamMarks(s: Session, t: Type, i: int)
    requires Dense(s)
    ensures s.typePos <= Param(s, t, i).typePos
    ensures t.scalarVector != SCALAR ==> |Param(s, t, i).typePos| > |s.typePos|
  {
    var n := |s.vars|;
    var s5 := ParamIds(s, t);
    ParamIdsShape(s, t);
    if t.scalarVector != SCALAR {
      ParamFits(t, n + 2);
      VectorCountTypeVar(t, n + 2);
      EmitMarkCount(Spell(ParamTpl()), [T(t), V(n + 2)], s5.irIndent, |s5.irVec|);
      PrintAppends(s5, IRVec, Spell(ParamTpl()), [T(t), V(n + 2)]);
    }
  }

  lemma {:induction false} ParamsMarks(s: Session, ts: seq<Type>, i: nat)
    requires Dense(s) && i <= |ts| && NoType in ts[i..]
    ensures s.typePos <= Params(s, ts, i).typePos
    decreases |ts| - i
  {
    if ts[i] != NoType {
      assert ts[i..] == [ts[i]] + ts[i + 1..];
      ParamMarks(s, ts[i], i);
      ParamsMarks(Param(s, ts[i], i), ts, i + 1);
    }
  }

  /** A kernel whose first argument has a vector-mode type has an offset
      in type_pos before its prologues are written. */
  lemma OpenedMarks(name: string, ts: seq<Type>)
    requires NoType in ts && |ts| >= 1 && ts[0].scalarVector != SCALAR
    ensures |Opened(name, ts).typePos| >= 1
    ensures MarksIn(Opened(name, ts).irVec, Opened(name, ts).typePos, 0)
  {
    OpenedSpec(name, ts);
    var h := Header(name);
    assert ts[0..] == ts;
    assert ts[0] != NoType;
    assert ts[1..] == ts[0..][1..];
    assert NoType in ts[1..];
    ParamMarks(h, ts[0], 0);
    ParamsMarks(Param(h, ts[0], 0), ts, 1);
  }

  /** The source writes the same vector IR as the corrected builder. */
  lemma CreateAsWrittenSameText(name: string, ts: seq<Type>)
    requires NoType in ts
    ensures CreateAsWritten(name, ts).irVec == Create(name, ts).irVec
  {
    var o := Opened(name, ts);
    OpenedSpec(name, ts);
    LoopHeadersAsWrittenVec(o, o.globalIndexVar);
    ProloguesSpec(o);
  }

  /** Finding: when the first argument has a vector-mode type, the source
      records the offset of an earlier placeholder a second time instead of
      the one of `%ipn`, which no entry of type_pos then points at (the
      corrected builder records `%ipn`'s, by ProloguesSpec). */
  lemma CreateAsWrittenStaleMark(name: string, ts: seq<Type>)
    requires NoType in ts && |ts| >= 1 && ts[0].scalarVector != SCALAR
    ensures var o := Opened(name, ts); var r := CreateAsWritten(name, ts);
      |r.typePos| == |o.typePos| + 1 && r.typePos[..|o.typePos|] == o.typePos &&
      r.typePos[|o.typePos|] + |Placeholder| <= |o.irVec|
  {
    var o := Opened(name, ts);
    OpenedMarks(name, ts);
    LoopHeadersAsWrittenVec(o, o.globalIndexVar);
    LoopHeadersAsWrittenStaleMark(o, o.globalIndexVar);
  }
  // ---------------------------------------------------------------------
  // trusimd_end_kernel

  /** The epilogues close the vector-IR loop and record nothing... */
  lemma EpiloguesVec(s: Session, g: int)
    ensures Epilogues(s, g).irVec == s.irVec + VecLoopExit
    ensures Epilogues(s, g).typePos == s.typePos
  {
    var s1 := s.(irIndent := 0, cIndent := 0);
    IrVecEpilogueFits();
    IrVecEpilogueText(0);
    assert VectorCount([]) == 0;
    PrintNoMarks(s1, IrVecEpilogue(), [], VecLoopExit);
  }

  /** ...step and close the scalar-IR loop over g... */
  lemma EpiloguesSca(s: Session, g: int)
    ensures Epilogues(s, g).irSca == s.irSca + (ScaLoopStep + (VarRef(IRSca, g) + ScaLoopExit))
  {
    var s1 := s.(irIndent := 0, cIndent := 0);
    var s2 := Print(s1, IRVec, Spell(IrVecEpilogue()), []);
    IrScaEpilogueFits(g);
    IrScaEpilogueText(g, Indentation(s2, IRSca));
    PrintLine(s2, IRSca, IrScaEpilogue(), [V(g)], ScaLoopStep + (VarRef(IRSca, g) + ScaLoopExit));
  }

  /** ...close both C kernels' bodies... */
  lemma EpiloguesC(s: Session, g: int)
    ensures Epilogues(s, g).cuda == s.cuda + "}\n"
    ensures Epilogues(s, g).opencl == s.opencl + "}\n"
  {
    var s1 := s.(irIndent := 0, cIndent := 0);
    var s2 := Print(s1, IRVec, Spell(IrVecEpilogue()), []);
    var s3 := Print(s2, IRSca, Spell(IrScaEpilogue()), [V(g)]);
    CEpilogueFits();
    CEpilogueText(CU, 0);
    CEpilogueText(CL, 0);
    CPairText(s3, CEpilogue(), []);
  }

  /** ...and leave the rest alone but for the indentations, back to
      column 0. */
  lemma EpiloguesFrame(s: Session, g: int)
    ensures var r := Epilogues(s, g);
      r == s.(irVec := r.irVec, irSca := r.irSca, typePos := r.typePos, cuda := r.cuda, opencl := r.opencl,
              irIndent := 0, cIndent := 0)
  {
  }

  /** trusimd_end_kernel (trusimd.cpp:604-623): each dialect gains its
      closing text, type_pos is unchanged and the session stays well
      formed. Nothing guards against a second call (see EndTwice). */
  lemma EndSpec(s: Session)
    requires Wf(s)
    ensures var r := End(s); var g := s.globalIndexVar;
      r.irVec == s.irVec + VecLoopExit && r.typePos == s.typePos &&
      r.irSca == s.irSca + (ScaLoopStep + (VarRef(IRSca, g) + ScaLoopExit)) &&
      r.cuda == s.cuda + "}\n" && r.opencl == s.opencl + "}\n" &&
      r.irIndent == 0 && r.cIndent == 0 && Wf(r)
  {
    var g := s.globalIndexVar;
    EpiloguesVec(s, g);
    EpiloguesSca(s, g);
    EpiloguesC(s, g);
    EpiloguesFrame(s, g);
    MarksPrefix(s.irVec, VecLoopExit, s.typePos, 0);
  }

  /** Ending a kernel twice writes every closing text twice: the C
      kernels get a stray `}`. */
  lemma EndTwice(s: Session)
    requires Wf(s)
    ensures End(End(s)).cuda == s.cuda + "}\n" + "}\n"
    ensures End(End(s)).irVec == s.irVec + VecLoopExit + VecLoopExit
  {
    EndSpec(s);
    EndSpec(End(s));
  }
}
