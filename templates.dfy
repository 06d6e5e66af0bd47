/** The format strings trusimd.cpp passes to print, written as token lists.
    Each list spells (through Spell) exactly the format literal of the
    source: a literal run stands for characters print copies, Indent for
    `|`, and a hole for a directive letter. A literal run never needs an
    escape here, except in the corrected CUDA prologue. */
module Templates {
  import opened TypeDesc
  import opened Decimal
  import opened TypeText
  import opened Emitter

  // need_ir_var (trusimd.cpp:331-332)

  /** "|V = load T, T* V\n" */
  function ReloadTpl(): seq<Tok> { [Indent, Var, Chars(" = load "), Typ, Chars(", "), Typ, Chars("* "), Var, Chars("\n")] }

  // trusimd_binop (trusimd.cpp:460-461)

  /** "|V = S T V, V\n\n" */
  function BinOpTpl(): seq<Tok> { [Indent, Var, Chars(" = "), Str, Chars(" "), Typ, Chars(" "), Var, Chars(", "), Var, Chars("\n\n")] }

  // trusimd_var (trusimd.cpp:679-684)

  /** "|V = alloca T\n\n" */
  function AllocaTpl(): seq<Tok> { [Indent, Var, Chars(" = alloca "), Typ, Chars("\n\n")] }

  /** "|T V;\n" */
  function DeclTpl(): seq<Tok> { [Indent, Typ, Chars(" "), Var, Chars(";\n")] }

  // trusimd_assign (trusimd.cpp:713-718) and trusimd_store (trusimd.cpp:811, 815)

  /** "|store T V, T* V\n\n" */
  function StoreTpl(): seq<Tok> { [Indent, Chars("store "), Typ, Chars(" "), Var, Chars(", "), Typ, Chars("* "), Var, Chars("\n\n")] }

  /** "|V = S;\n" */
  function AssignCTpl(): seq<Tok> { [Indent, Var, Chars(" = "), Str, Chars(";\n")] }

  // trusimd_load and trusimd_store (trusimd.cpp:752-765, 801-818)

  /** "|V = getelementptr inbounds T, T* V, T V\n" */
  function GepTpl(): seq<Tok> { [Indent, Var, Chars(" = getelementptr inbounds "), Typ, Chars(", "), Typ, Chars("* "), Var, Chars(", "), Typ, Chars(" "), Var, Chars("\n")] }

  /** "|V = bitcast T* V to T*\n" */
  function BitcastTpl(): seq<Tok> { [Indent, Var, Chars(" = bitcast "), Typ, Chars("* "), Var, Chars(" to "), Typ, Chars("*\n")] }

  /** "|V = load T, T* V\n\n" */
  function LoadTpl(): seq<Tok> { [Indent, Var, Chars(" = load "), Typ, Chars(", "), Typ, Chars("* "), Var, Chars("\n\n")] }

  /** "|S[S] = S;\n\n" */
  function StoreCTpl(): seq<Tok> { [Indent, Str, Chars("["), Str, Chars("] = "), Str, Chars(";\n\n")] }

  // trusimd_create_kernel_ap (trusimd.cpp:516-590)

  /** "define void @S(i64 %size" */
  function IrVecDefineTpl(): seq<Tok> { [Chars("define void @"), Str, Chars("(i64 %size")] }

  /** "define void @S(i64 %i, i64 %size, i8* %args) {\n\n" */
  function IrScaDefineTpl(): seq<Tok> { [Chars("define void @"), Str, Chars("(i64 %i, i64 %size, i8* %args) {\n\n")] }

  /** "__kernel__ void S(int size" */
  function CuDefineTpl(): seq<Tok> { [Chars("__kernel__ void "), Str, Chars("(int size")] }

  /** "__kernel void S(int size" */
  function ClDefineTpl(): seq<Tok> { [Chars("__kernel void "), Str, Chars("(int size")] }

  /** ", T V", the parameter of the vector IR and of CUDA. */
  function ParamTpl(): seq<Tok> { [Chars(", "), Typ, Chars(" "), Var] }

  /** ", __global T V" */
  function ClParamTpl(): seq<Tok> { [Chars(", __global "), Typ, Chars(" "), Var] }

  /** "|V = getelementptr inbounds i8, i8* %args, i64 D\n" */
  function ArgAddressTpl(): seq<Tok> {
    [Indent, Var, Chars(" = getelementptr inbounds i8, i8* %args, i64 "), Dec, Chars("\n")]
  }

  /** "|V = bitcast i8* V to T*\n" */
  function ArgCastTpl(): seq<Tok> {
    [Indent, Var, Chars(" = bitcast i8* "), Var, Chars(" to "), Typ, Chars("*\n")]
  }

  /** The three adjacent literals of the scalar IR's argument unpacking. */
  function IrScaParamTpl(): seq<Tok> {
    ArgAddressTpl() + ArgCastTpl() + LoadTpl()
  }

  // The literal runs of the prologues and epilogues.

  const VecLoopEntry: string := ") {\n\n  %global_index_ptr = alloca i64\n  store i64 0, i64* %global_index_ptr\n  br label %for_cond\n\nfor_cond:\n\n  "
  const VecLoopIndex: string := " = load i64, i64* %global_index_ptr\n  %ipn = add i64 "
  const VecLoopTest: string := "\n  %b = icmp sgt i64 %ipn, %size\n  br i1 %b, label %for_exit, label %for_body\n\nfor_body:\n\n"
  const ScaLoopEntry: string := "  %global_index_ptr = alloca i64\n  store i64 %i, i64* %global_index_ptr\n  br label %for_cond\n\nfor_cond:\n\n  "
  const ScaLoopIndex: string := " = load i64, i64* %global_index_ptr\n  %b = icmp sge i64 "
  const ScaLoopTest: string := ", %size\n  br i1 %b, label %for_exit, label %for_body\n\nfor_body:\n\n"
  const CuIndexHead: string := " = (int)(block"
  const CuIndexTail: string := "im.x * blockIdx.x + threadIdx.x);\n  if ("
  /** ` = (int)(blockDim.x * blockIdx.x + threadIdx.x);` and the guard's
      opening, around the D that print would read as a directive. */
  const CuIndex: string := CuIndexHead + ("D" + CuIndexTail)
  const ClIndex: string := " = (int)get_global_id(0);\n  if ("
  const GuardTail: string := " >= size) {\n    return;\n  }\n\n"
  const VecLoopExit: string := "  store i64 %ipn, i64* %global_index_ptr\n  br label %for_cond\n\nfor_exit:\n\n  ret void\n\n}\n"
  const ScaLoopStep: string := "  %ip1 = add nsw i64 "
  const ScaLoopExit: string := ", 1\n  store i64 %ip1, i64* %global_index_ptr\n  br label %for_cond\n\nfor_exit:\n\n  ret void\n\n}\n"

  /** The vector-IR prologue up to the lane-width placeholder of `%ipn`. */
  function IrVecPrologueHead(): seq<Tok> {
    [Chars(VecLoopEntry), Var, Chars(VecLoopIndex), Var, Chars(", ")]
  }

  /** The rest of the vector-IR prologue, from the placeholder on. */
  function IrVecPrologueTail(): seq<Tok> {
    [Chars(Placeholder + VecLoopTest)]
  }

  /** The vector-IR prologue as the source writes it: one format, with the
      placeholder inside its last run. */
  function IrVecPrologueAsWritten(): seq<Tok> {
    [Chars(VecLoopEntry), Var, Chars(VecLoopIndex), Var, Chars(", " + (Placeholder + VecLoopTest))]
  }

  function IrScaPrologue(): seq<Tok> {
    [Chars(ScaLoopEntry), Var, Chars(ScaLoopIndex), Var, Chars(ScaLoopTest)]
  }

  /** The CUDA prologue as the source writes it: print reads the D of
      `blockDim` as a directive. */
  function CuPrologueAsWritten(): seq<Tok> {
    [Chars(") {\n\n  int "), Var, Chars(CuIndexHead), Dec, Chars(CuIndexTail), Var, Chars(GuardTail)]
  }

  /** The CUDA prologue with `blockDim` as literal text (spelled `block\Dim`). */
  function CuPrologue(): seq<Tok> {
    [Chars(") {\n\n  int "), Var, Chars(CuIndex), Var, Chars(GuardTail)]
  }

  function ClPrologue(): seq<Tok> {
    [Chars(") {\n\n  int "), Var, Chars(ClIndex), Var, Chars(GuardTail)]
  }

  // trusimd_end_kernel (trusimd.cpp:607-622)

  function IrVecEpilogue(): seq<Tok> {
    [Chars(VecLoopExit)]
  }

  function IrScaEpilogue(): seq<Tok> {
    [Chars(ScaLoopStep), Var, Chars(ScaLoopExit)]
  }

  function CEpilogue(): seq<Tok> {
    [Chars("}\n")]
  }

  // ---------------------------------------------------------------------
  // Every call of print in the source passes arguments that line up with
  // the directives of its format (the CUDA prologue as written aside).

  lemma ReloadFits(a: int, t1: Type, t2: Type, b: int)
    ensures WellFormed(ReloadTpl()) && Fits(Spell(ReloadTpl()), [V(a), T(t1), T(t2), V(b)])
  {
    assert WellFormed(ReloadTpl());
    assert TokDirectives(ReloadTpl(), 0) == "VTTV";
    assert ArgKinds([V(a), T(t1), T(t2), V(b)]) == "VTTV";
    SpellFits(ReloadTpl(), [V(a), T(t1), T(t2), V(b)]);
  }

  lemma LoadFits(a: int, t1: Type, t2: Type, b: int)
    ensures WellFormed(LoadTpl()) && Fits(Spell(LoadTpl()), [V(a), T(t1), T(t2), V(b)])
  {
    assert WellFormed(LoadTpl());
    assert TokDirectives(LoadTpl(), 0) == "VTTV";
    assert ArgKinds([V(a), T(t1), T(t2), V(b)]) == "VTTV";
    SpellFits(LoadTpl(), [V(a), T(t1), T(t2), V(b)]);
  }

  lemma BinOpFits(nv: int, op: string, t: Type, a: int, b: int)
    ensures WellFormed(BinOpTpl()) && Fits(Spell(BinOpTpl()), [V(nv), S(op), T(t), V(a), V(b)])
  {
    assert WellFormed(BinOpTpl());
    assert TokDirectives(BinOpTpl(), 0) == "VSTVV";
    assert ArgKinds([V(nv), S(op), T(t), V(a), V(b)]) == "VSTVV";
    SpellFits(BinOpTpl(), [V(nv), S(op), T(t), V(a), V(b)]);
  }

  lemma AllocaFits(nv: int, t: Type)
    ensures WellFormed(AllocaTpl()) && Fits(Spell(AllocaTpl()), [V(nv), T(t)])
  {
    assert WellFormed(AllocaTpl());
    assert TokDirectives(AllocaTpl(), 0) == "VT";
    assert ArgKinds([V(nv), T(t)]) == "VT";
    SpellFits(AllocaTpl(), [V(nv), T(t)]);
  }

  lemma DeclFits(t: Type, nv: int)
    ensures WellFormed(DeclTpl()) && Fits(Spell(DeclTpl()), [T(t), V(nv)])
  {
    assert WellFormed(DeclTpl());
    assert TokDirectives(DeclTpl(), 0) == "TV";
    assert ArgKinds([T(t), V(nv)]) == "TV";
    SpellFits(DeclTpl(), [T(t), V(nv)]);
  }

  lemma StoreFits(t1: Type, a: int, t2: Type, b: int)
    ensures WellFormed(StoreTpl()) && Fits(Spell(StoreTpl()), [T(t1), V(a), T(t2), V(b)])
  {
    assert WellFormed(StoreTpl());
    assert TokDirectives(StoreTpl(), 0) == "TVTV";
    assert ArgKinds([T(t1), V(a), T(t2), V(b)]) == "TVTV";
    SpellFits(StoreTpl(), [T(t1), V(a), T(t2), V(b)]);
  }

  lemma AssignCFits(l: int, e: string)
    ensures WellFormed(AssignCTpl()) && Fits(Spell(AssignCTpl()), [V(l), S(e)])
  {
    assert WellFormed(AssignCTpl());
    assert TokDirectives(AssignCTpl(), 0) == "VS";
    assert ArgKinds([V(l), S(e)]) == "VS";
    SpellFits(AssignCTpl(), [V(l), S(e)]);
  }

  lemma GepFits(a: int, t1: Type, t2: Type, b: int, t3: Type, c: int)
    ensures WellFormed(GepTpl()) && Fits(Spell(GepTpl()), [V(a), T(t1), T(t2), V(b), T(t3), V(c)])
  {
    assert WellFormed(GepTpl());
    assert TokDirectives(GepTpl(), 0) == "VTTVTV";
    assert ArgKinds([V(a), T(t1), T(t2), V(b), T(t3), V(c)]) == "VTTVTV";
    SpellFits(GepTpl(), [V(a), T(t1), T(t2), V(b), T(t3), V(c)]);
  }

  lemma BitcastFits(a: int, t1: Type, b: int, t2: Type)
    ensures WellFormed(BitcastTpl()) && Fits(Spell(BitcastTpl()), [V(a), T(t1), V(b), T(t2)])
  {
    assert WellFormed(BitcastTpl());
    assert TokDirectives(BitcastTpl(), 0) == "VTVT";
    assert ArgKinds([V(a), T(t1), V(b), T(t2)]) == "VTVT";
    SpellFits(BitcastTpl(), [V(a), T(t1), V(b), T(t2)]);
  }

  lemma StoreCFits(a: string, b: string, c: string)
    ensures WellFormed(StoreCTpl()) && Fits(Spell(StoreCTpl()), [S(a), S(b), S(c)])
  {
    assert WellFormed(StoreCTpl());
    assert TokDirectives(StoreCTpl(), 0) == "SSS";
    assert ArgKinds([S(a), S(b), S(c)]) == "SSS";
    SpellFits(StoreCTpl(), [S(a), S(b), S(c)]);
  }

  lemma IrVecDefineFits(name: string)
    ensures WellFormed(IrVecDefineTpl()) && Fits(Spell(IrVecDefineTpl()), [S(name)])
  {
    assert WellFormed(IrVecDefineTpl());
    assert TokDirectives(IrVecDefineTpl(), 0) == "S";
    assert ArgKinds([S(name)]) == "S";
    SpellFits(IrVecDefineTpl(), [S(name)]);
  }

  lemma IrScaDefineFits(name: string)
    ensures WellFormed(IrScaDefineTpl()) && Fits(Spell(IrScaDefineTpl()), [S(name)])
  {
    assert WellFormed(IrScaDefineTpl());
    assert TokDirectives(IrScaDefineTpl(), 0) == "S";
    assert ArgKinds([S(name)]) == "S";
    SpellFits(IrScaDefineTpl(), [S(name)]);
  }

  lemma CuDefineFits(name: string)
    ensures WellFormed(CuDefineTpl()) && Fits(Spell(CuDefineTpl()), [S(name)])
  {
    assert WellFormed(CuDefineTpl());
    assert TokDirectives(CuDefineTpl(), 0) == "S";
    assert ArgKinds([S(name)]) == "S";
    SpellFits(CuDefineTpl(), [S(name)]);
  }

  lemma ClDefineFits(name: string)
    ensures WellFormed(ClDefineTpl()) && Fits(Spell(ClDefineTpl()), [S(name)])
  {
    assert WellFormed(ClDefineTpl());
    assert TokDirectives(ClDefineTpl(), 0) == "S";
    assert ArgKinds([S(name)]) == "S";
    SpellFits(ClDefineTpl(), [S(name)]);
  }

  lemma ParamFits(t: Type, nv: int)
    ensures WellFormed(ParamTpl()) && Fits(Spell(ParamTpl()), [T(t), V(nv)])
  {
    assert WellFormed(ParamTpl());
    assert TokDirectives(ParamTpl(), 0) == "TV";
    assert ArgKinds([T(t), V(nv)]) == "TV";
    SpellFits(ParamTpl(), [T(t), V(nv)]);
  }

  lemma ClParamFits(t: Type, nv: int)
    ensures WellFormed(ClParamTpl()) && Fits(Spell(ClParamTpl()), [T(t), V(nv)])
  {
    assert WellFormed(ClParamTpl());
    assert TokDirectives(ClParamTpl(), 0) == "TV";
    assert ArgKinds([T(t), V(nv)]) == "TV";
    SpellFits(ClParamTpl(), [T(t), V(nv)]);
  }

  lemma IrVecPrologueHeadFits(g: int)
    ensures WellFormed(IrVecPrologueHead()) && Fits(Spell(IrVecPrologueHead()), [V(g), V(g)])
  {
    assert WellFormed(IrVecPrologueHead());
    assert TokDirectives(IrVecPrologueHead(), 0) == "VV";
    assert ArgKinds([V(g), V(g)]) == "VV";
    SpellFits(IrVecPrologueHead(), [V(g), V(g)]);
  }

  lemma IrVecPrologueTailFits()
    ensures WellFormed(IrVecPrologueTail()) && Fits(Spell(IrVecPrologueTail()), [])
  {
    assert WellFormed(IrVecPrologueTail());
    assert TokDirectives(IrVecPrologueTail(), 0) == "";
    assert ArgKinds([]) == "";
    SpellFits(IrVecPrologueTail(), []);
  }

  lemma IrVecPrologueAsWrittenFits(g: int)
    ensures WellFormed(IrVecPrologueAsWritten()) && Fits(Spell(IrVecPrologueAsWritten()), [V(g), V(g)])
  {
    assert WellFormed(IrVecPrologueAsWritten());
    assert TokDirectives(IrVecPrologueAsWritten(), 0) == "VV";
    assert ArgKinds([V(g), V(g)]) == "VV";
    SpellFits(IrVecPrologueAsWritten(), [V(g), V(g)]);
  }

  lemma IrScaPrologueFits(g: int)
    ensures WellFormed(IrScaPrologue()) && Fits(Spell(IrScaPrologue()), [V(g), V(g)])
  {
    assert WellFormed(IrScaPrologue());
    assert TokDirectives(IrScaPrologue(), 0) == "VV";
    assert ArgKinds([V(g), V(g)]) == "VV";
    SpellFits(IrScaPrologue(), [V(g), V(g)]);
  }

  lemma CuPrologueFits(g: int)
    ensures WellFormed(CuPrologue()) && Fits(Spell(CuPrologue()), [V(g), V(g)])
  {
    assert WellFormed(CuPrologue());
    assert TokDirectives(CuPrologue(), 0) == "VV";
    assert ArgKinds([V(g), V(g)]) == "VV";
    SpellFits(CuPrologue(), [V(g), V(g)]);
  }

  lemma ClPrologueFits(g: int)
    ensures WellFormed(ClPrologue()) && Fits(Spell(ClPrologue()), [V(g), V(g)])
  {
    assert WellFormed(ClPrologue());
    assert TokDirectives(ClPrologue(), 0) == "VV";
    assert ArgKinds([V(g), V(g)]) == "VV";
    SpellFits(ClPrologue(), [V(g), V(g)]);
  }

  lemma IrVecEpilogueFits()
    ensures WellFormed(IrVecEpilogue()) && Fits(Spell(IrVecEpilogue()), [])
  {
    assert WellFormed(IrVecEpilogue());
    assert TokDirectives(IrVecEpilogue(), 0) == "";
    assert ArgKinds([]) == "";
    SpellFits(IrVecEpilogue(), []);
  }

  lemma IrScaEpilogueFits(g: int)
    ensures WellFormed(IrScaEpilogue()) && Fits(Spell(IrScaEpilogue()), [V(g)])
  {
    assert WellFormed(IrScaEpilogue());
    assert TokDirectives(IrScaEpilogue(), 0) == "V";
    assert ArgKinds([V(g)]) == "V";
    SpellFits(IrScaEpilogue(), [V(g)]);
  }

  lemma CEpilogueFits()
    ensures WellFormed(CEpilogue()) && Fits(Spell(CEpilogue()), [])
  {
    assert WellFormed(CEpilogue());
    assert TokDirectives(CEpilogue(), 0) == "";
    assert ArgKinds([]) == "";
    SpellFits(CEpilogue(), []);
  }

  lemma ArgAddressShape()
    ensures WellFormed(ArgAddressTpl()) && TokDirectives(ArgAddressTpl(), 0) == "VD"
  {
  }

  lemma ArgCastShape()
    ensures WellFormed(ArgCastTpl()) && TokDirectives(ArgCastTpl(), 0) == "VVT"
  {
  }

  lemma LoadShape()
    ensures WellFormed(LoadTpl()) && TokDirectives(LoadTpl(), 0) == "VTTV"
  {
  }

  lemma WellFormedAppend(a: seq<Tok>, b: seq<Tok>)
    requires WellFormed(a) && WellFormed(b)
    ensures WellFormed(a + b)
  {
  }

  lemma IrScaParamShape()
    ensures WellFormed(IrScaParamTpl()) && TokDirectives(IrScaParamTpl(), 0) == "VDVVTVTTV"
  {
    ArgAddressShape();
    ArgCastShape();
    LoadShape();
    TokDirectivesAppend(ArgAddressTpl(), ArgCastTpl(), 0);
    TokDirectivesAppend(ArgAddressTpl() + ArgCastTpl(), LoadTpl(), 0);
    WellFormedAppend(ArgAddressTpl(), ArgCastTpl());
    WellFormedAppend(ArgAddressTpl() + ArgCastTpl(), LoadTpl());
  }

  lemma IrScaParamFits(a8: int, off: int, aT: int, t: Type, nv: int)
    ensures WellFormed(IrScaParamTpl()) &&
      Fits(Spell(IrScaParamTpl()), [V(a8), D(off), V(aT), V(a8), T(t), V(nv), T(t), T(t), V(aT)])
  {
    IrScaParamShape();
    assert ArgKinds([V(a8), D(off), V(aT), V(a8), T(t), V(nv), T(t), T(t), V(aT)]) == "VDVVTVTTV";
    SpellFits(IrScaParamTpl(), [V(a8), D(off), V(aT), V(a8), T(t), V(nv), T(t), T(t), V(aT)]);
  }

  // ---------------------------------------------------------------------
  // What some of the formats write, read token by token.

  lemma TextOfChars(lang: Lang, t: seq<Tok>, indent: int)
    requires |t| == 1 && t[0].Chars?
    ensures ToksText(lang, t, 0, [], indent) == t[0].s
  {
    assert ToksText(lang, t, 1, [], indent) == [];
  }

  lemma TextOfCharsVarChars(lang: Lang, t: seq<Tok>, a: int, indent: int)
    requires |t| == 3 && t[0].Chars? && t[1] == Var && t[2].Chars?
    ensures ToksText(lang, t, 0, [V(a)], indent) == t[0].s + (VarRef(lang, a) + t[2].s)
  {
    assert [V(a)][1..] == [];
    assert ToksText(lang, t, 2, [], indent) == t[2].s;
    assert ToksText(lang, t, 1, [V(a)], indent) == VarRef(lang, a) + t[2].s;
  }

  lemma TextOfTwoVars(lang: Lang, t: seq<Tok>, a: int, b: int, indent: int)
    requires |t| == 5 && t[0].Chars? && t[1] == Var && t[2].Chars? && t[3] == Var && t[4].Chars?
    ensures ToksText(lang, t, 0, [V(a), V(b)], indent) ==
      t[0].s + (VarRef(lang, a) + (t[2].s + (VarRef(lang, b) + t[4].s)))
  {
    assert [V(a), V(b)][1..] == [V(b)];
    assert [V(b)][1..] == [];
    assert ToksText(lang, t, 4, [], indent) == t[4].s;
    assert ToksText(lang, t, 3, [V(b)], indent) == VarRef(lang, b) + t[4].s;
    assert ToksText(lang, t, 2, [V(b)], indent) == t[2].s + (VarRef(lang, b) + t[4].s);
    assert ToksText(lang, t, 1, [V(a), V(b)], indent) == VarRef(lang, a) + (t[2].s + (VarRef(lang, b) + t[4].s));
  }

  lemma TextOfAssignC(lang: Lang, t: seq<Tok>, l: int, e: string, indent: int)
    requires |t| == 5 && t[0] == Indent && t[1] == Var && t[2].Chars? && t[3] == Str && t[4].Chars?
    ensures ToksText(lang, t, 0, [V(l), S(e)], indent) ==
      Repeat(' ', indent) + (VarRef(lang, l) + (t[2].s + (e + t[4].s)))
  {
    assert [V(l), S(e)][1..] == [S(e)];
    assert [S(e)][1..] == [];
    assert ToksText(lang, t, 4, [], indent) == t[4].s;
    assert ToksText(lang, t, 3, [S(e)], indent) == e + t[4].s;
    assert ToksText(lang, t, 2, [S(e)], indent) == t[2].s + (e + t[4].s);
    assert ToksText(lang, t, 1, [V(l), S(e)], indent) == VarRef(lang, l) + (t[2].s + (e + t[4].s));
  }

  lemma TextOfDecl(lang: Lang, t: seq<Tok>, ty: Type, nv: int, indent: int)
    requires |t| == 5 && t[0] == Indent && t[1] == Typ && t[2].Chars? && t[3] == Var && t[4].Chars?
    ensures ToksText(lang, t, 0, [T(ty), V(nv)], indent) ==
      Repeat(' ', indent) + (TypeEmit(lang, ty, 0).text + (t[2].s + (VarRef(lang, nv) + t[4].s)))
  {
    assert [T(ty), V(nv)][1..] == [V(nv)];
    assert [V(nv)][1..] == [];
    assert ToksText(lang, t, 4, [], indent) == t[4].s;
    assert ToksText(lang, t, 3, [V(nv)], indent) == VarRef(lang, nv) + t[4].s;
    assert ToksText(lang, t, 2, [V(nv)], indent) == t[2].s + (VarRef(lang, nv) + t[4].s);
    assert ToksText(lang, t, 1, [T(ty), V(nv)], indent) == TypeEmit(lang, ty, 0).text + (t[2].s + (VarRef(lang, nv) + t[4].s));
  }

  lemma TextOfStoreC(lang: Lang, t: seq<Tok>, a: string, b: string, c: string, indent: int)
    requires |t| == 7 && t[0] == Indent && t[1] == Str && t[2].Chars? && t[3] == Str
    requires t[4].Chars? && t[5] == Str && t[6].Chars?
    ensures ToksText(lang, t, 0, [S(a), S(b), S(c)], indent) ==
      Repeat(' ', indent) + (a + (t[2].s + (b + (t[4].s + (c + t[6].s)))))
  {
    assert [S(a), S(b), S(c)][1..] == [S(b), S(c)];
    assert [S(b), S(c)][1..] == [S(c)];
    assert [S(c)][1..] == [];
    assert ToksText(lang, t, 6, [], indent) == t[6].s;
    assert ToksText(lang, t, 5, [S(c)], indent) == c + t[6].s;
    assert ToksText(lang, t, 4, [S(c)], indent) == t[4].s + (c + t[6].s);
    assert ToksText(lang, t, 3, [S(b), S(c)], indent) == b + (t[4].s + (c + t[6].s));
    assert ToksText(lang, t, 2, [S(b), S(c)], indent) == t[2].s + (b + (t[4].s + (c + t[6].s)));
    assert ToksText(lang, t, 1, [S(a), S(b), S(c)], indent) == a + (t[2].s + (b + (t[4].s + (c + t[6].s))));
  }

  /** The C statement trusimd_store writes: `a[b] = c;` and a blank line. */
  lemma StoreCText(lang: Lang, a: string, b: string, c: string, indent: int)
    ensures ToksText(lang, StoreCTpl(), 0, [S(a), S(b), S(c)], indent) ==
      Repeat(' ', indent) + (a + ("[" + (b + ("] = " + (c + ";\n\n")))))
  {
    TextOfStoreC(lang, StoreCTpl(), a, b, c, indent);
  }

  /** The C statement trusimd_assign writes: `vL = e;`. */
  lemma AssignCText(lang: Lang, l: int, e: string, indent: int)
    ensures ToksText(lang, AssignCTpl(), 0, [V(l), S(e)], indent) ==
      Repeat(' ', indent) + (VarRef(lang, l) + (" = " + (e + ";\n")))
  {
    TextOfAssignC(lang, AssignCTpl(), l, e, indent);
  }

  /** The C declaration trusimd_var writes: `type vN;`. */
  lemma DeclText(lang: Lang, ty: Type, nv: int, indent: int)
    ensures ToksText(lang, DeclTpl(), 0, [T(ty), V(nv)], indent) ==
      Repeat(' ', indent) + (TypeEmit(lang, ty, 0).text + (" " + (VarRef(lang, nv) + ";\n")))
  {
    TextOfDecl(lang, DeclTpl(), ty, nv, indent);
  }

  /** Each C dialect closes the kernel body with a single brace. */
  lemma CEpilogueText(lang: Lang, indent: int)
    ensures ToksText(lang, CEpilogue(), 0, [], indent) == "}\n"
  {
    TextOfChars(lang, CEpilogue(), indent);
  }

  lemma IrVecEpilogueText(indent: int)
    ensures ToksText(IRVec, IrVecEpilogue(), 0, [], indent) == VecLoopExit
  {
    TextOfChars(IRVec, IrVecEpilogue(), indent);
  }

  /** The scalar IR's loop step increments the global index variable. */
  lemma IrScaEpilogueText(g: int, indent: int)
    ensures ToksText(IRSca, IrScaEpilogue(), 0, [V(g)], indent) ==
      ScaLoopStep + (VarRef(IRSca, g) + ScaLoopExit)
  {
    TextOfCharsVarChars(IRSca, IrScaEpilogue(), g, indent);
  }

  /** The second half of the vector-IR prologue starts with the placeholder. */
  lemma IrVecPrologueTailText(indent: int)
    ensures ToksText(IRVec, IrVecPrologueTail(), 0, [], indent) == Placeholder + VecLoopTest
    ensures PlaceholderAt(ToksText(IRVec, IrVecPrologueTail(), 0, [], indent), 0)
  {
    TextOfChars(IRVec, IrVecPrologueTail(), indent);
    var x := Placeholder + VecLoopTest;
    assert x[0..|Placeholder|] == Placeholder;
  }

  /** The first half ends right before it: the global index is loaded and
      added to the lane count still to be written. */
  /** The vector IR's prologue text before the lane-width placeholder. */
  function VecPrologueHeadText(g: int): string {
    VecLoopEntry + (VarRef(IRVec, g) + (VecLoopIndex + (VarRef(IRVec, g) + ", ")))
  }

  lemma IrVecPrologueHeadText(g: int, indent: int)
    ensures ToksText(IRVec, IrVecPrologueHead(), 0, [V(g), V(g)], indent) == VecPrologueHeadText(g)
  {
    TextOfTwoVars(IRVec, IrVecPrologueHead(), g, g, indent);
  }

  /** The scalar IR's loop header: the global index starts at %i and is
      compared with the size. */
  function ScaPrologueText(g: int): string {
    ScaLoopEntry + (VarRef(IRSca, g) + (ScaLoopIndex + (VarRef(IRSca, g) + ScaLoopTest)))
  }

  lemma IrScaPrologueText(g: int, indent: int)
    ensures ToksText(IRSca, IrScaPrologue(), 0, [V(g), V(g)], indent) == ScaPrologueText(g)
  {
    TextOfTwoVars(IRSca, IrScaPrologue(), g, g, indent);
  }

  /** Written in one piece, the vector-IR prologue is the same text as the
      head and the tail. */
  lemma IrVecPrologueAsWrittenText(g: int, indent: int)
    ensures ToksText(IRVec, IrVecPrologueAsWritten(), 0, [V(g), V(g)], indent) ==
      VecPrologueHeadText(g) + (Placeholder + VecLoopTest)
  {
    TextOfTwoVars(IRVec, IrVecPrologueAsWritten(), g, g, indent);
    var v := VarRef(IRVec, g);
    SplitLast(VecLoopEntry, v, VecLoopIndex, v, ", ", Placeholder + VecLoopTest);
  }

  lemma SplitLast(a: string, b: string, c: string, d: string, e: string, f: string)
    ensures a + (b + (c + (d + (e + f)))) == a + (b + (c + (d + e))) + f
  {
  }

  /** The corrected CUDA prologue: the global index is declared from the
      block and thread coordinates and bounds the body. */
  function CudaPrologueText(g: int): string {
    ") {\n\n  int " + (VarRef(CU, g) + (CuIndex + (VarRef(CU, g) + GuardTail)))
  }

  lemma CuPrologueText(g: int, indent: int)
    ensures ToksText(CU, CuPrologue(), 0, [V(g), V(g)], indent) == CudaPrologueText(g)
  {
    TextOfTwoVars(CU, CuPrologue(), g, g, indent);
  }

  /** The OpenCL prologue: the global index comes from get_global_id. */
  function OpenclPrologueText(g: int): string {
    ") {\n\n  int " + (VarRef(CL, g) + (ClIndex + (VarRef(CL, g) + GuardTail)))
  }

  lemma ClPrologueText(g: int, indent: int)
    ensures ToksText(CL, ClPrologue(), 0, [V(g), V(g)], indent) == OpenclPrologueText(g)
  {
    TextOfTwoVars(CL, ClPrologue(), g, g, indent);
  }

  // ---------------------------------------------------------------------
  // The CUDA prologue as written.

  /** print reads three directives in the format, V, D and V, but is given
      two variable numbers: the call does not fit. */
  lemma CuPrologueAsWrittenMisfits(g: int)
    ensures WellFormed(CuPrologueAsWritten())
    ensures Directives(Spell(CuPrologueAsWritten())) == "VDV"
    ensures !Fits(Spell(CuPrologueAsWritten()), [V(g), V(g)])
  {
    assert WellFormed(CuPrologueAsWritten());
    assert TokDirectives(CuPrologueAsWritten(), 0) == "VDV";
    DirectivesSpell(CuPrologueAsWritten(), 0);
  }

  lemma TextOfAsWrittenTail(lang: Lang, t: seq<Tok>, b: int, indent: int)
    requires |t| == 7 && t[3] == Dec && t[4].Chars? && t[5] == Var && t[6].Chars?
    ensures ToksText(lang, t, 3, [V(b)], indent) == IntToString(b) + (t[4].s + t[6].s)
  {
    assert [V(b)][1..] == [];
    assert ToksText(lang, t, 6, [], indent) == t[6].s;
    assert ToksText(lang, t, 5, [], indent) == t[6].s;
    assert ToksText(lang, t, 4, [], indent) == t[4].s + t[6].s;
    assert TokHead(lang, t[3], [V(b)], indent, 0) == Head(Emitted(IntToString(b), []), 1, []);
  }

  lemma TextOfAsWritten(lang: Lang, t: seq<Tok>, a: int, b: int, indent: int)
    requires |t| == 7 && t[0].Chars? && t[1] == Var && t[2].Chars? && t[3] == Dec
    requires t[4].Chars? && t[5] == Var && t[6].Chars?
    ensures ToksText(lang, t, 0, [V(a), V(b)], indent) ==
      t[0].s + (VarRef(lang, a) + (t[2].s + (IntToString(b) + (t[4].s + t[6].s))))
  {
    assert [V(a), V(b)][1..] == [V(b)];
    TextOfAsWrittenTail(lang, t, b, indent);
    assert ToksText(lang, t, 2, [V(b)], indent) == t[2].s + (IntToString(b) + (t[4].s + t[6].s));
  }

  function CudaPrologueAsWrittenText(g: int): string {
    ") {\n\n  int " + (VarRef(CU, g) + (CuIndexHead + (IntToString(g) + (CuIndexTail + GuardTail))))
  }

  /** What the as-written prologue then writes: the D takes the second
      argument and prints the index's number inside `blockDim`, and the
      bound check's V finds no argument left. In C that V still writes its
      `v` and then reads past the last argument (undefined behaviour); here
      it writes nothing at all. */
  lemma CuPrologueAsWrittenText(g: int, indent: int)
    ensures ToksText(CU, CuPrologueAsWritten(), 0, [V(g), V(g)], indent) == CudaPrologueAsWrittenText(g)
  {
    TextOfAsWritten(CU, CuPrologueAsWritten(), g, g, indent);
  }
  lemma Regroup(h: string, v: string, x: string, y: string, z: string)
    ensures h + (v + (x + (y + z))) == (h + v + x) + (y + z)
  {
  }

  /** The character after a common prefix is the first of what follows. */
  lemma CharAfter(p: string, a: string)
    requires |a| >= 1
    ensures |p| < |p + a| && (p + a)[..|p|] == p && (p + a)[|p|] == a[0]
  {
  }

  /** The corrected and the as-written CUDA texts agree up to `block`;
      there the corrected one goes on with the D of `blockDim` and the
      as-written one with the first character of the index's number. */
  lemma BlockDimLost(g: int)
    ensures var p := ") {\n\n  int " + VarRef(CU, g) + CuIndexHead;
      |p| < |CudaPrologueText(g)| && |p| < |CudaPrologueAsWrittenText(g)| &&
      CudaPrologueText(g)[..|p|] == p && CudaPrologueAsWrittenText(g)[..|p|] == p &&
      CudaPrologueText(g)[|p|] == 'D' &&
      (IsDigit(CudaPrologueAsWrittenText(g)[|p|]) || CudaPrologueAsWrittenText(g)[|p|] == '-')
    ensures CudaPrologueAsWrittenText(g) != CudaPrologueText(g)
  {
    var h := ") {\n\n  int ";
    var v := VarRef(CU, g);
    var p := h + v + CuIndexHead;
    var n := IntToString(g);
    Regroup(h, v, CuIndexHead, "D" + CuIndexTail, v + GuardTail);
    AppendAssoc("D", CuIndexTail, v + GuardTail);
    CharAfter(p, "D" + CuIndexTail + (v + GuardTail));
    Regroup(h, v, CuIndexHead, n, CuIndexTail + GuardTail);
    CharAfter(p, n + (CuIndexTail + GuardTail));
    if g < 0 {
      assert n == "-" + NatToString(-g);
    }
  }
}
