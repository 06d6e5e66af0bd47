/** struct trusimd_kernel (trusimd.cpp:69-90) as an object whose builder
    entry points update its fields in place, each proved to take the
    session from State() to the value the matching KernelSpec function
    gives. */
module Builder {
  import opened TypeDesc
  import opened Decimal
  import opened TypeText
  import opened Emitter
  import opened Templates
  import opened Ops
  import opened ErrorCodes
  import KS = KernelSpec

  class Kernel {
    var name: string
    // LLVM IR
    var userVars: set<int>
    var typePos: seq<int>
    var irVec: string
    var irSca: string
    var irIndent: int
    // CUDA/OpenCL
    var expr: map<int, string>
    var cuda: string
    var opencl: string
    var cIndent: int
    // Common to all
    var vars: seq<Type>
    var args: seq<Type>
    var argsVars: seq<int>
    var nextVar: int
    var globalIndexVar: int

    /** The fields, read as a session value. */
    function State(): KS.Session
      reads this
    {
      KS.Session(name, userVars, typePos, irVec, irSca, irIndent, expr, cuda, opencl, cIndent,
                 vars, args, argsVars, nextVar, globalIndexVar)
    }

    // -------------------------------------------------------------------
    // print

    /** The buffer print appends to for a dialect, replaced. */
    method SetBuffer(lang: Lang, b: string)
      modifies this
      ensures State() == KS.WithBuffer(old(State()), lang, b)
    {
      match lang
      case IRVec => irVec := b;
      case IRSca => irSca := b;
      case CU => cuda := b;
      case CL => opencl := b;
    }

    /** Both indentations, replaced. */
    method SetIndentation(ir: int, c: int)
      modifies this
      ensures State() == old(State()).(irIndent := ir, cIndent := c)
    {
      irIndent := ir;
      cIndent := c;
    }

    /** print_irvec_type (trusimd.cpp:145-161): a vector-mode type records
        the offset one past the point where it starts, where the placeholder
        begins. */
    method PrintIrvecType(buf: string, t: Type) returns (r: string)
      modifies this`typePos
      ensures r == buf + TypeEmit(IRVec, t, |buf|).text
      ensures typePos == old(typePos) + TypeEmit(IRVec, t, |buf|).marks
    {
      if t.scalarVector == SCALAR {
        r := PrintIrscaType(buf, t);
        return;
      }
      typePos := typePos + [|buf| + 1];
      var s := "<" + Placeholder + " x ";
      s := PrintIrType(s, t);
      s := s + ">";
      if t.nbTimesPtr > 0 {
        var stars := AppendRepeat(" ", '*', t.nbTimesPtr);
        s := s + stars;
      }
      r := buf + s;
    }

    /** The S, D, V and T cases of print's switch, given the argument
        va_arg returns. */
    method PrintDirective(lang: Lang, c: char, a: Arg, buf: string) returns (r: string)
      modifies this`typePos
      ensures r == buf + ArgEmit(lang, c, a, |buf|).text
      ensures typePos == old(typePos) + ArgEmit(lang, c, a, |buf|).marks
    {
      r := buf;
      if c == 'S' && a.S? {
        r := r + a.s;
      } else if c == 'D' && (a.D? || a.V?) {
        r := r + IntToString(IntOf(a));
      } else if c == 'V' && (a.D? || a.V?) {
        if lang == IRVec || lang == IRSca {
          r := r + "%v";
        } else {
          r := r + "v";
        }
        r := r + IntToString(IntOf(a));
        AppendAssoc(buf, if IsIr(lang) then "%v" else "v", IntToString(IntOf(a)));
      } else if c == 'T' && a.T? {
        match lang
        case IRVec => r := PrintIrvecType(r, a.t);
        case IRSca => r := PrintIrscaType(r, a.t);
        case CU => r := PrintCType(r, a.t);
        case CL => r := PrintCType(r, a.t);
      }
    }

    /** One pass of print's loop at format position i: the text it appends
        to buf, the arguments it leaves and the position it moves to are
        those of Step. */
    method PrintStep(lang: Lang, fmt: string, i: nat, rest: seq<Arg>, indentation: int, buf: string)
      returns (i': nat, rest': seq<Arg>, buf': string)
      requires i < |fmt|
      modifies this`typePos
      ensures var h := Step(lang, fmt[i..], rest, indentation, |buf|);
        buf' == buf + h.out.text && rest' == h.rest && i' == i + h.width &&
        typePos == old(typePos) + h.out.marks
    {
      i', rest', buf' := i, rest, buf;
      var c := fmt[i];
      if c == '\\' {
        if i + 1 < |fmt| {
          buf' := buf' + [fmt[i + 1]];
          i' := i' + 1;
        }
      } else if c == '|' {
        buf' := AppendRepeat(buf', ' ', indentation);
      } else if IsDirective(c) {
        if rest != [] {
          var a := rest[0];
          rest' := rest[1..];
          buf' := PrintDirective(lang, c, a, buf');
        }
      } else {
        buf' := buf' + [c];
      }
      i' := i' + 1;
    }

    /** print (trusimd.cpp:222-318): the loop runs until the format's end,
        appending to the dialect's buffer. */
    method Print(lang: Lang, fmt: string, fmtArgs: seq<Arg>)
      modifies this
      ensures State() == KS.Print(old(State()), lang, fmt, fmtArgs)
    {
      var buf0 := KS.Buffer(State(), lang);
      var indentation := KS.Indentation(State(), lang);
      ghost var s0 := State();
      var buf, marks := PrintLoop(lang, fmt, fmtArgs, indentation, buf0);
      KS.PrintFrom(s0, lang, fmt, fmtArgs, buf[|buf0|..], marks, buf);
      assert State() == s0.(typePos := s0.typePos + marks);
      SetBuffer(lang, buf);
    }

    /** The loop of print (trusimd.cpp:251-306): the text it appends to
        buf0 and the offsets it records are what the format writes. */
    method PrintLoop(lang: Lang, fmt: string, fmtArgs: seq<Arg>, indentation: int, buf0: string)
      returns (buf: string, ghost marks: seq<int>)
      modifies this`typePos
      ensures |buf0| <= |buf| && buf == buf0 + buf[|buf0|..]
      ensures Emit(lang, fmt, fmtArgs, indentation, |buf0|) == Emitted(buf[|buf0|..], marks)
      ensures lang != IRVec ==> marks == []
      ensures typePos == old(typePos) + marks
    {
      buf := buf0;
      marks := [];
      var rest := fmtArgs;
      var i: nat := 0;
      ProgressStart(lang, fmt, fmtArgs, indentation, buf0);
      while i < |fmt|
        invariant Progress(lang, fmt, fmtArgs, indentation, buf0, i, rest, buf, marks)
        invariant typePos == old(typePos) + marks
        modifies this`typePos
        decreases |fmt| - i
      {
        ghost var h := Step(lang, fmt[i..], rest, indentation, |buf|);
        ProgressStep(lang, fmt, fmtArgs, indentation, buf0, i, rest, buf, marks, h);
        MarksAssoc(old(typePos), marks, h.out.marks);
        i, rest, buf := PrintStep(lang, fmt, i, rest, indentation, buf);
        marks := marks + h.out.marks;
      }
      ProgressEnd(lang, fmt, fmtArgs, indentation, buf0, rest, buf, marks);
    }

    // -------------------------------------------------------------------
    // pick_next_var and need_ir_var

    /** pick_next_var (trusimd.cpp:104-109). */
    method PickNextVar(t: Type) returns (id: int)
      requires nextVar >= -1
      modifies this
      ensures (State(), id) == KS.Pick(old(State()), t)
    {
      nextVar := nextVar + 1;
      vars := KS.Resize(vars, nextVar + 1);
      vars := vars[nextVar := t];
      id := nextVar;
    }

    /** need_ir_var (trusimd.cpp:323-334). */
    method NeedIrVar(x: int) returns (v: int)
      requires KS.Dense(State()) && 0 <= x < |vars|
      modifies this
      ensures (State(), v) == KS.Need(old(State()), x)
    {
      if x !in userVars {
        return x;
      }
      var t := vars[x];
      var nv := PickNextVar(t);
      Print(IRVec, Spell(ReloadTpl()), [V(nv), T(t), T(t), V(x)]);
      Print(IRSca, Spell(ReloadTpl()), [V(nv), T(t), T(t), V(x)]);
      v := nv;
    }

    // -------------------------------------------------------------------
    // trusimd_binop and trusimd_add

    /** The IR half of trusimd_binop (trusimd.cpp:457-461). */
    method BinOpIr(op: Ops.BinOp, left: int, right: int) returns (nv: int)
      requires KS.Dense(State()) && 0 <= left < |vars| && 0 <= right < |vars|
      modifies this
      ensures (State(), nv) == KS.BinOpIr(old(State()), op, left, right)
    {
      var lt := vars[left];
      var llvmIrOp := IrOp(op, lt);
      var vl := NeedIrVar(left);
      var vr := NeedIrVar(right);
      nv := PickNextVar(lt);
      Print(IRVec, Spell(BinOpTpl()), [V(nv), S(llvmIrOp), T(lt), V(vl), V(vr)]);
      Print(IRSca, Spell(BinOpTpl()), [V(nv), S(llvmIrOp), T(lt), V(vl), V(vr)]);
    }

    /** The C half of trusimd_binop (trusimd.cpp:463): the result's
        expression, parenthesised; both operands' entries are looked up,
        which inserts an empty one for an operand that has none. */
    method BinOpExpr(nv: int, left: int, right: int, cOp: string)
      modifies this`expr
      ensures expr == KS.Touch(KS.Touch(old(expr), left), right)[nv := "(" + KS.ExprAt(old(expr), left) + cOp + KS.ExprAt(old(expr), right) + ")"]
    {
      var e := expr;
      var el := KS.ExprAt(e, left);
      e := KS.Touch(e, left);
      var er := KS.ExprAt(e, right);
      KS.ExprAtTouch(old(expr), left, right);
      e := KS.Touch(e, right);
      expr := e[nv := "(" + el + cOp + er + ")"];
    }

    /** trusimd_binop (trusimd.cpp:354-466): Err(ETYPE) stands for the
        thrown int. */
    method BinOp(op: Ops.BinOp, left: int, right: int) returns (res: Result<int>)
      requires KS.Dense(State()) && 0 <= left < |vars| && 0 <= right < |vars|
      modifies this
      ensures (State(), res) == KS.BinOp(old(State()), op, left, right)
    {
      var lt := vars[left];
      var rt := vars[right];
      // The type check's switch is TypeOk's.
      if !TypeOk(op, lt, rt) {
        return Err(ETYPE);
      }
      var nv := BinOpIr(op, left, right);
      BinOpExpr(nv, left, right, COp(op, lt));
      res := Ok(nv);
    }

    /** trusimd_add (trusimd.cpp:667-669). */
    method Add(left: int, right: int) returns (res: Result<int>)
      requires KS.Dense(State()) && 0 <= left < |vars| && 0 <= right < |vars|
      modifies this
      ensures (State(), res) == KS.BinOp(old(State()), Ops.Add, left, right)
    {
      res := BinOp(Ops.Add, left, right);
    }

    /** One template printed to both IR buffers. */
    method IrPair(toks: seq<Tok>, args: seq<Arg>)
      modifies this
      ensures State() == KS.IrPair(old(State()), toks, args)
    {
      Print(IRVec, Spell(toks), args);
      Print(IRSca, Spell(toks), args);
    }

    /** One template printed to both C buffers. */
    method CPair(toks: seq<Tok>, args: seq<Arg>)
      modifies this
      ensures State() == KS.CPair(old(State()), toks, args)
    {
      Print(CU, Spell(toks), args);
      Print(CL, Spell(toks), args);
    }

    // -------------------------------------------------------------------
    // trusimd_var and trusimd_assign

    /** trusimd_var (trusimd.cpp:674-697). */
    method Var(t: Type) returns (nv: int)
      requires KS.Dense(State())
      modifies this
      ensures (State(), nv) == KS.NewVar(old(State()), t)
    {
      ghost var s0 := State();
      nv := PickNextVar(t);
      ghost var s1 := State();
      userVars := userVars + {nv};
      assert State() == s1.(userVars := s1.userVars + {nv});
      IrPair(AllocaTpl(), [V(nv), T(t)]);
      CPair(DeclTpl(), [T(t), V(nv)]);
      ghost var s4 := State();
      var name := "v";
      name := name + IntToString(nv);
      expr := expr[nv := name];
      assert State() == s4.(expr := s4.expr[nv := "v" + IntToString(nv)]);
    }

    /** trusimd_assign (trusimd.cpp:703-727). */
    method Assign(lvalue: int, rvalue: int) returns (res: Result<int>)
      requires KS.Dense(State()) && 0 <= lvalue < |vars| && 0 <= rvalue < |vars|
      modifies this
      ensures (State(), res) == KS.Assign(old(State()), lvalue, rvalue)
    {
      var t := vars[lvalue];
      if !Equal(t, vars[rvalue]) {
        return Err(ETYPE);
      }
      IrPair(StoreTpl(), [T(t), V(rvalue), T(t), V(lvalue)]);
      var rhs := KS.ExprAt(expr, rvalue);
      expr := KS.Touch(expr, rvalue);
      CPair(AssignCTpl(), [V(lvalue), S(rhs)]);
      res := Ok(0);
    }

    // -------------------------------------------------------------------
    // trusimd_load and trusimd_store

    /** The element address in the vector IR, cast when the element type
        was promoted (trusimd.cpp:750-759 and 800-809). */
    method VecAddress(t: Type, vecT: Type, tmp: int, gep: seq<Arg>) returns (tmp2: int)
      requires KS.Dense(State())
      modifies this
      ensures (State(), tmp2) == KS.VecAddress(old(State()), t, vecT, tmp, gep)
    {
      Print(IRVec, Spell(GepTpl()), gep);
      tmp2 := tmp;
      if !Equal(t, vecT) {
        tmp2 := PickNextVar(vecT);
        Print(IRVec, Spell(BitcastTpl()), [V(tmp2), T(t), V(tmp), T(vecT)]);
      }
    }

    /** The scalar IR's access: the element address, then the access
        through it (trusimd.cpp:761-765 and 811-815). */
    method ScaAccess(gep: seq<Arg>, toks: seq<Tok>, args: seq<Arg>)
      modifies this
      ensures State() == KS.Print(KS.Print(old(State()), IRSca, Spell(GepTpl()), gep), IRSca, Spell(toks), args)
    {
      Print(IRSca, Spell(GepTpl()), gep);
      Print(IRSca, Spell(toks), args);
    }

    /** The operands of trusimd_load's element address
        (trusimd.cpp:750-752): the pointer reloaded, the address's id, the
        offset reloaded. */
    method LoadOperands(ptr: int, offset: int, vecT: Type) returns (vptr: int, tmp: int, voffset: int)
      requires KS.Dense(State()) && 0 <= ptr < |vars| && 0 <= offset < |vars|
      modifies this
      ensures var (s1, a) := KS.Need(old(State()), ptr);
              var (s2, b) := KS.Pick(s1, vecT);
              (State(), vptr, tmp, voffset) == (KS.Need(s2, offset).0, a, b, KS.Need(s2, offset).1)
    {
      vptr := NeedIrVar(ptr);
      tmp := PickNextVar(vecT);
      voffset := NeedIrVar(offset);
    }

    /** The operands of trusimd_store's element address
        (trusimd.cpp:800-802): the address's id, the pointer reloaded, the
        offset reloaded. */
    method StoreOperands(ptr: int, offset: int, ptrT: Type) returns (tmp: int, vptr: int, voffset: int)
      requires KS.Dense(State()) && 0 <= ptr < |vars| && 0 <= offset < |vars|
      modifies this
      ensures var (s1, a) := KS.Pick(old(State()), ptrT);
              var (s2, b) := KS.Need(s1, ptr);
              (State(), tmp, vptr, voffset) == (KS.Need(s2, offset).0, a, b, KS.Need(s2, offset).1)
    {
      tmp := PickNextVar(ptrT);
      vptr := NeedIrVar(ptr);
      voffset := NeedIrVar(offset);
    }

    /** The IR half of trusimd_load (trusimd.cpp:750-765). */
    method LoadIr(ptr: int, offset: int) returns (nv: int)
      requires KS.Dense(State()) && 0 <= ptr < |vars| && 0 <= offset < |vars|
      modifies this
      ensures (State(), nv) == KS.LoadIr(old(State()), ptr, offset)
    {
      var t := RemovePointer(vars[ptr]);
      var vecT := t;
      if offset == globalIndexVar {
        vecT := vecT.(scalarVector := VECTOR);
      }
      var offsetT := vars[offset];
      ghost var s0 := State();
      var vptr, tmp, voffset := LoadOperands(ptr, offset, vecT);
      ghost var s3 := State();
      var gep := KS.GepArgs(tmp, t, vptr, offsetT, voffset);
      var tmp2 := VecAddress(t, vecT, tmp, gep);
      ghost var s5 := State();
      nv := PickNextVar(vecT);
      ghost var s6 := State();
      assert (s5, tmp2) == KS.VecAddress(s3, t, vecT, tmp, gep) && (s6, nv) == KS.Pick(s5, vecT);
      Print(IRVec, Spell(LoadTpl()), [V(nv), T(vecT), T(vecT), V(tmp2)]);
      ScaAccess(gep, LoadTpl(), [V(nv), T(t), T(t), V(tmp)]);
    }

    /** The C half of trusimd_load (trusimd.cpp:768): the pointer's
        expression indexed by the offset's. */
    method LoadExpr(nv: int, ptr: int, offset: int)
      modifies this`expr
      ensures expr == KS.Touch(KS.Touch(old(expr), ptr), offset)[nv := KS.ExprAt(old(expr), ptr) + "[" + KS.ExprAt(old(expr), offset) + "]"]
    {
      var e := expr;
      var ep := KS.ExprAt(e, ptr);
      e := KS.Touch(e, ptr);
      var eo := KS.ExprAt(e, offset);
      KS.ExprAtTouch(old(expr), ptr, offset);
      e := KS.Touch(e, offset);
      expr := e[nv := ep + "[" + eo + "]"];
    }

    /** trusimd_load (trusimd.cpp:732-777). */
    method Load(ptr: int, offset: int) returns (res: Result<int>)
      requires KS.Dense(State()) && 0 <= ptr < |vars| && 0 <= offset < |vars|
      modifies this
      ensures (State(), res) == KS.Load(old(State()), ptr, offset)
    {
      if !IsInt(vars[offset]) {
        return Err(ETYPE);
      }
      var nv := LoadIr(ptr, offset);
      LoadExpr(nv, ptr, offset);
      res := Ok(nv);
    }

    /** The IR half of trusimd_store (trusimd.cpp:799-815). */
    method StoreIr(ptr: int, offset: int, v: int)
      requires KS.Dense(State()) && 0 <= ptr < |vars| && 0 <= offset < |vars| && 0 <= v < |vars|
      modifies this
      ensures State() == KS.StoreIr(old(State()), ptr, offset, v)
    {
      var ptrT := vars[ptr];
      var t := RemovePointer(ptrT);
      var vecT := t;
      if offset == globalIndexVar {
        vecT := vecT.(scalarVector := VECTOR);
      }
      var offsetT := vars[offset];
      ghost var s0 := State();
      var tmp, vptr, voffset := StoreOperands(ptr, offset, ptrT);
      ghost var s3 := State();
      var gep := KS.GepArgs(tmp, t, vptr, offsetT, voffset);
      var tmp2 := VecAddress(t, vecT, tmp, gep);
      ghost var s5 := State();
      var vv := NeedIrVar(v);
      ghost var s6 := State();
      assert (s5, tmp2) == KS.VecAddress(s3, t, vecT, tmp, gep) && (s6, vv) == KS.Need(s5, v);
      Print(IRVec, Spell(StoreTpl()), [T(vecT), V(vv), T(vecT), V(tmp2)]);
      ScaAccess(gep, StoreTpl(), [T(t), V(vv), T(t), V(tmp)]);
    }

    /** trusimd_store (trusimd.cpp:782-830). */
    method Store(ptr: int, offset: int, v: int) returns (res: Result<int>)
      requires KS.Dense(State()) && 0 <= ptr < |vars| && 0 <= offset < |vars| && 0 <= v < |vars|
      modifies this
      ensures (State(), res) == KS.Store(old(State()), ptr, offset, v)
    {
      var t := RemovePointer(vars[ptr]);
      var vecT := t;
      if offset == globalIndexVar {
        vecT := vecT.(scalarVector := VECTOR);
      }
      if !IsInt(vars[offset]) || (!Equal(vars[v], t) && !Equal(vars[v], vecT)) {
        return Err(ETYPE);
      }
      StoreIr(ptr, offset, v);
      ghost var s1 := State();
      var e := expr;
      var args := [S(KS.ExprAt(e, ptr)), S(KS.ExprAt(e, offset)), S(KS.ExprAt(e, v))];
      expr := KS.Touch(KS.Touch(KS.Touch(e, ptr), offset), v);
      assert State() == s1.(expr := KS.Touch(KS.Touch(KS.Touch(s1.expr, ptr), offset), v));
      CPair(StoreCTpl(), args);
      res := Ok(0);
    }

    // -------------------------------------------------------------------
    // trusimd_create_kernel_ap

    /** trusimd_create_kernel_ap (trusimd.cpp:505-594), with the CUDA
        prologue's `blockDim` written as text and the recorded offset taken
        where the vector prologue writes its placeholder. */
    constructor Create(name: string, ts: seq<Type>)
      requires NoType in ts
      ensures State() == KS.Create(name, ts)
    {
      this.name := name;
      userVars := {};
      typePos := [];
      irVec := "";
      irSca := "";
      irIndent := 0;
      expr := map[];
      cuda := "";
      opencl := "";
      cIndent := 0;
      vars := [];
      args := [];
      argsVars := [];
      nextVar := -1;
      globalIndexVar := 0;
      new;
      OpenHeaders(name);
      OpenParams(ts);
      LoopHeaders(globalIndexVar);
    }

    /** trusimd_create_kernel_ap as trusimd.cpp:505-594 writes it: the `D`
        of the CUDA prologue's `blockDim` takes the index's number, which
        leaves the guard's `V` with no argument (that `V` writes nothing
        here, see `Emitter.Step`), and the recorded offset is the first
        placeholder of the whole vector IR. */
    constructor CreateAsWritten(name: string, ts: seq<Type>)
      requires NoType in ts
      ensures State() == KS.CreateAsWritten(name, ts)
    {
      this.name := name;
      userVars := {};
      typePos := [];
      irVec := "";
      irSca := "";
      irIndent := 0;
      expr := map[];
      cuda := "";
      opencl := "";
      cIndent := 0;
      vars := [];
      args := [];
      argsVars := [];
      nextVar := -1;
      globalIndexVar := 0;
      new;
      OpenHeaders(name);
      OpenParams(ts);
      LoopHeadersAsWritten(globalIndexVar);
    }

    /** The header lines of the four texts (trusimd.cpp:514-520), from a
        fresh kernel. */
    method OpenHeaders(name: string)
      requires State() == KS.Session(name, {}, [], "", "", 0, map[], "", "", 0, [], [], [], -1, 0)
      modifies this
      ensures State() == KS.Header(name)
    {
      Print(IRVec, Spell(IrVecDefineTpl()), [S(name)]);
      Print(IRSca, Spell(IrScaDefineTpl()), [S(name)]);
      irIndent := 2;
      Print(CU, Spell(CuDefineTpl()), [S(name)]);
      Print(CL, Spell(ClDefineTpl()), [S(name)]);
    }

    /** The bookkeeping of one pass of the argument loop
        (trusimd.cpp:526-534); the three ids are the next three. */
    method ParamIds(t: Type) returns (a8: int, aT: int, nv: int)
      requires KS.Dense(State())
      modifies this
      ensures State() == KS.ParamIds(old(State()), t)
      ensures a8 == |old(vars)| && aT == a8 + 1 && nv == a8 + 2
    {
      args := args + [t];
      a8 := PickNextVar(Int8);
      aT := PickNextVar(t);
      nv := PickNextVar(t);
      ghost var s4 := State();
      var e := "v";
      e := e + IntToString(nv);
      expr := expr[nv := e];
      argsVars := argsVars + [nv];
      assert State() == s4.(expr := s4.expr[nv := "v" + IntToString(nv)], argsVars := s4.argsVars + [nv]);
    }

    /** The text of one pass of the argument loop (trusimd.cpp:535-544). */
    method ParamPrints(t: Type, i: int, a8: int, aT: int, nv: int)
      modifies this
      ensures State() == KS.ParamPrints(old(State()), t, i, a8, aT, nv)
    {
      Print(IRVec, Spell(ParamTpl()), [T(t), V(nv)]);
      Print(IRSca, Spell(IrScaParamTpl()), [V(a8), D(8 * i), V(aT), V(a8), T(t), V(nv), T(t), T(t), V(aT)]);
      Print(CU, Spell(ParamTpl()), [T(t), V(nv)]);
      Print(CL, Spell(ClParamTpl()), [T(t), V(nv)]);
    }

    /** One pass of the argument loop (trusimd.cpp:525-544). */
    method AddParam(t: Type, argI: int)
      requires KS.Dense(State())
      modifies this
      ensures State() == KS.Param(old(State()), t, argI)
    {
      var a8, aT, nv := ParamIds(t);
      ParamPrints(t, argI, a8, aT, nv);
    }

    /** The argument loop (trusimd.cpp:521-545): one pass per type before
        the terminating trusimd_notype. */
    method AddParams(ts: seq<Type>)
      requires KS.Dense(State()) && NoType in ts
      modifies this
      ensures State() == KS.Params(old(State()), ts, 0)
    {
      var argI: nat := 0;
      assert ts[0..] == ts;
      while true
        invariant argI <= |ts| && NoType in ts[argI..] && KS.Dense(State())
        invariant KS.Params(State(), ts, argI) == KS.Params(old(State()), ts, 0)
        decreases |ts| - argI
      {
        var t := ts[argI];
        if Equal(t, NoType) {
          break;
        }
        KS.ParamsUnfold(State(), ts, argI);
        AddParam(t, argI);
        argI := argI + 1;
      }
    }

    /** The argument loop, then the global index variable
        (trusimd.cpp:521-549). */
    method OpenParams(ts: seq<Type>)
      requires KS.Dense(State()) && NoType in ts
      modifies this
      ensures State() == KS.OpenedAfter(old(State()), ts)
    {
      AddParams(ts);
      assert ts[0..] == ts;
      var gid := PickNextVar(Int64);
      ghost var s2 := State();
      var e := "v";
      e := e + IntToString(gid);
      expr := expr[gid := e];
      globalIndexVar := gid;
      assert State() == s2.(expr := s2.expr[gid := "v" + IntToString(gid)], globalIndexVar := gid);
    }

    /** Prints head, records the vector IR's length as the next offset to
        patch, then prints tail, all to the vector IR. */
    method PrintMarked(head: seq<Tok>, fmtArgs: seq<Arg>, tail: seq<Tok>)
      modifies this
      ensures State() == KS.PrintMarked(old(State()), head, fmtArgs, tail)
    {
      Print(IRVec, Spell(head), fmtArgs);
      typePos := typePos + [|irVec|];
      Print(IRVec, Spell(tail), []);
    }

    /** One template printed to the CUDA buffer and another to the OpenCL
        buffer. */
    method CBoth(cu: seq<Tok>, cl: seq<Tok>, fmtArgs: seq<Arg>)
      modifies this
      ensures State() == KS.CBoth(old(State()), cu, cl, fmtArgs)
    {
      Print(CU, Spell(cu), fmtArgs);
      Print(CL, Spell(cl), fmtArgs);
    }

    /** The loop prologues over the global index g (trusimd.cpp:547-586). */
    method LoopHeaders(g: int)
      modifies this
      ensures State() == KS.LoopHeaders(old(State()), g)
    {
      PrintMarked(IrVecPrologueHead(), [V(g), V(g)], IrVecPrologueTail());
      Print(IRSca, Spell(IrScaPrologue()), [V(g), V(g)]);
      CBoth(CuPrologue(), ClPrologue(), [V(g), V(g)]);
      SetIndentation(2, 2);
    }

    /** The loop prologues over g as trusimd.cpp:547-586 writes them. */
    method LoopHeadersAsWritten(g: int)
      modifies this
      ensures State() == KS.LoopHeadersAsWritten(old(State()), g)
    {
      Print(IRVec, Spell(IrVecPrologueAsWritten()), [V(g), V(g)]);
      Print(IRSca, Spell(IrScaPrologue()), [V(g), V(g)]);
      typePos := typePos + [Find(irVec, Placeholder)];
      CBoth(CuPrologueAsWritten(), ClPrologue(), [V(g), V(g)]);
      SetIndentation(2, 2);
    }

    // -------------------------------------------------------------------
    // trusimd_end_kernel and the getters

    /** trusimd_end_kernel (trusimd.cpp:604-623). */
    method End()
      modifies this
      ensures State() == KS.End(old(State()))
    {
      SetIndentation(0, 0);
      Print(IRVec, Spell(IrVecEpilogue()), []);
      Print(IRSca, Spell(IrScaEpilogue()), [V(globalIndexVar)]);
      CPair(CEpilogue(), []);
    }

    /** trusimd_nb_kernel_args (trusimd.cpp:627). */
    method NbKernelArgs() returns (n: int)
      ensures n == KS.NbArgs(State())
    {
      n := |args|;
    }

    /** trusimd_get_kernel_arg (trusimd.cpp:629-631). */
    method GetKernelArg(i: int) returns (id: int)
      requires 0 <= i < |argsVars|
      ensures id == KS.GetArg(State(), i)
    {
      id := argsVars[i];
    }

    /** trusimd_get_global_id (trusimd.cpp:835). */
    method GetGlobalId() returns (id: int)
      ensures id == KS.GetGlobalId(State())
    {
      id := globalIndexVar;
    }

    /** trusimd_get_cuda, trusimd_get_opencl and trusimd_get_llvmir
        (trusimd.cpp:636-638): the texts as they stand. */
    method GetTexts() returns (cu: string, cl: string, ir: string)
      ensures cu == State().cuda && cl == State().opencl && ir == State().irVec
    {
      cu, cl, ir := cuda, opencl, irVec;
    }
  }
}
