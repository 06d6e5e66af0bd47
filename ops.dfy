/** The binary operators of trusimd_binop: which operand types each accepts
    and how each is spelled in LLVM IR and in C (trusimd.cpp:338-455). */
module Ops {
  import opened TypeDesc

  datatype BinOp = Add | Sub | Mul | Div | Rem | Shl | Shr | Shra | Xor | And | Or | AndNot

  /** The arithmetic operators, defined on any pair of equal types. */
  predicate IsArith(op: BinOp) {
    op == Add || op == Sub || op == Mul || op == Div
  }

  /** The bitwise operators and the remainder: equal integer types. */
  predicate IsBitwise(op: BinOp) {
    op == Rem || op == Xor || op == And || op == AndNot || op == Or
  }

  /** The shifts: any two integer types, not necessarily equal. */
  predicate IsShift(op: BinOp) {
    op == Shl || op == Shr || op == Shra
  }

  /** The type check of trusimd_binop, before anything is allocated. */
  predicate TypeOk(op: BinOp, lt: Type, rt: Type) {
    match op
    case Add | Sub | Mul | Div => Equal(lt, rt)
    case Rem | Xor | And | AndNot | Or => Equal(lt, rt) && IsInt(lt)
    case Shl | Shr | Shra => IsInt(lt) && IsInt(rt)
  }

  /** The LLVM instruction, chosen from the left operand's type. */
  function IrOp(op: BinOp, lt: Type): string {
    match op
    case Add => if IsInt(lt) then "add" else "fadd"
    case Sub => if IsInt(lt) then "sub" else "fsub"
    case Mul => if IsInt(lt) then "mul" else "fmul"
    case Div => if IsInt(lt) then (if IsSigned(lt) then "sdiv" else "udiv") else "fdiv"
    case Rem => if IsSigned(lt) then "srem" else "urem"
    case Xor => "xor"
    case And => "and"
    case AndNot => "andnot"
    case Or => "or"
    case Shl => "shl"
    case Shr => "lshr"
    case Shra => "ashr"
  }

  /** The C infix operator, spaces included. */
  function COp(op: BinOp, lt: Type): string {
    match op
    case Add => " + "
    case Sub => " - "
    case Mul => " * "
    case Div => " / "
    case Rem => " % "
    case Xor => " ^ "
    case And => if IsBool(lt) then " && " else " & "
    case AndNot => if IsBool(lt) then " && " else " & "
    case Or => if IsBool(lt) then " || " else " | "
    case Shl => " << "
    case Shr => " >> "
    case Shra => " >> "
  }

  /** The type rule, group by group: equal types for arithmetic, equal
      integer types for the bitwise group, integer operands for shifts. */
  lemma TypeRule(op: BinOp, lt: Type, rt: Type)
    ensures IsArith(op) ==> (TypeOk(op, lt, rt) <==> lt == rt)
    ensures IsBitwise(op) ==> (TypeOk(op, lt, rt) <==> lt == rt && IsInt(lt))
    ensures IsShift(op) ==> (TypeOk(op, lt, rt) <==> IsInt(lt) && IsInt(rt))
  {
  }

  /** Shifts are the only operators that accept two different types. */
  lemma OnlyShiftsMixTypes(op: BinOp, lt: Type, rt: Type)
    requires TypeOk(op, lt, rt) && lt != rt
    ensures IsShift(op) && IsInt(lt) && IsInt(rt)
  {
  }

  /** The floating-point instructions are exactly the arithmetic
      operators on a non-integer left operand. */
  lemma FloatInstructions(op: BinOp, lt: Type)
    ensures IrOp(op, lt)[0] == 'f' <==> IsArith(op) && !IsInt(lt)
  {
  }

  /** Division and remainder are signed exactly when the left operand is. */
  lemma SignedDivision(lt: Type)
    ensures IsInt(lt) ==> (IrOp(Div, lt) == "sdiv" <==> IsSigned(lt))
    ensures IrOp(Rem, lt) == "srem" <==> IsSigned(lt)
  {
  }

  /** The logical C operators are used exactly on booleans, and and-not is
      written in C exactly as and is, though the IR tells them apart. */
  lemma LogicalOnBool(lt: Type)
    ensures COp(And, lt) == " && " <==> IsBool(lt)
    ensures COp(Or, lt) == " || " <==> IsBool(lt)
    ensures COp(AndNot, lt) == COp(And, lt) && IrOp(AndNot, lt) != IrOp(And, lt)
  {
  }
}
