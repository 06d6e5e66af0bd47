/** How each dialect spells a type descriptor: print_ir_type, print_irsca_type,
    print_irvec_type (its text; the offset it records belongs to the kernel)
    and print_c_type, which serves both C dialects. */
module TypeText {
  import opened TypeDesc
  import opened Decimal

  /** The fixed-width lane-width marker written wherever a vector type is
      spelled in the vector IR, to be overwritten once the width is known. */
  const Placeholder: string := "??????????"

  /** n copies of c; a negative count gives none, as a `for` loop from 0
      to n would. */
  function Repeat(c: char, n: int): (s: string)
    ensures |s| == (if n > 0 then n else 0)
    ensures forall i :: 0 <= i < |s| ==> s[i] == c
    decreases if n > 0 then n else 0
  {
    if n <= 0 then [] else Repeat(c, n - 1) + [c]
  }


  /** print_ir_type: the element spelling of LLVM IR. A float of a width other
      than 16, 32 or 64, or a kind outside the four, spells nothing. */
  function IrBase(t: Type): string {
    if t.kind == SIGNED || t.kind == UNSIGNED then "i" + IntToString(t.width)
    else if t.kind == FLOAT then
      (if t.width == 16 then "half" else if t.width == 32 then "float"
       else if t.width == 64 then "double" else "")
    else if t.kind == BFLOAT then "bfloat"
    else ""
  }

  /** print_irsca_type: the lane mode is ignored. */
  function IrScaText(t: Type): string {
    IrBase(t) + Repeat('*', t.nbTimesPtr)
  }

  /** print_irvec_type: a vector-mode type becomes `<?????????? x elem>`,
      followed by a space and the stars when it is a pointer. Any lane mode
      other than scalar counts as vector. */
  function IrVecText(t: Type): string {
    if t.scalarVector == SCALAR then IrScaText(t)
    else "<" + Placeholder + " x " + IrBase(t) + ">" +
         (if t.nbTimesPtr > 0 then " " + Repeat('*', t.nbTimesPtr) else "")
  }

  function CWidthWord(width: int): string {
    if width == 8 then "char" else if width == 16 then "short"
    else if width == 32 then "int" else if width == 64 then "long" else ""
  }

  /** The word print_c_type writes for the kind of a descriptor wider than
      one bit. */
  function CKindWord(t: Type): string {
    if t.kind == SIGNED then "signed"
    else if t.kind == UNSIGNED then "unsigned"
    else if t.kind == FLOAT then
      (if t.width == 16 then "half" else if t.width == 32 then "float"
       else if t.width == 64 then "double" else "")
    else if t.kind == BFLOAT then "bfloat16"
    else ""
  }

  /** print_c_type without its stars. Width 1 is `bool` whatever the kind;
      integers get their width word after a space. */
  function CBase(t: Type): string {
    if t.width == 1 then "bool"
    else CKindWord(t) + (if IsInt(t) then " " + CWidthWord(t.width) else "")
  }

  /** print_c_type (print_cuda_type and print_opencl_type both call it). */
  function CText(t: Type): string {
    CBase(t) + Repeat('*', t.nbTimesPtr)
  }

  // ---------------------------------------------------------------------
  // The printers, appending to a buffer as the source does.

  /** print_ir_type. */
  method PrintIrType(buf: string, t: Type) returns (r: string)
    ensures r == buf + IrBase(t)
  {
    r := buf;
    if t.kind == SIGNED || t.kind == UNSIGNED {
      r := r + "i";
      r := r + IntToString(t.width);
    } else if t.kind == FLOAT {
      if t.width == 16 {
        r := r + "half";
      } else if t.width == 32 {
        r := r + "float";
      } else if t.width == 64 {
        r := r + "double";
      }
    } else if t.kind == BFLOAT {
      r := r + "bfloat";
    }
  }

  /** Appends n copies of c one at a time, as the printers' `for` loops
      do for pointer stars and print does for the indentation. */
  method AppendRepeat(buf: string, c: char, n: int) returns (r: string)
    ensures r == buf + Repeat(c, n)
  {
    r := buf;
    var i := 0;
    while i < n
      invariant 0 <= i <= (if n > 0 then n else 0)
      invariant r == buf + Repeat(c, i)
    {
      r := r + [c];
      i := i + 1;
    }
  }

  /** print_irsca_type. */
  method PrintIrscaType(buf: string, t: Type) returns (r: string)
    ensures r == buf + IrScaText(t)
  {
    r := PrintIrType(buf, t);
    r := AppendRepeat(r, '*', t.nbTimesPtr);
  }

  /** The kind switch of print_c_type. */
  method PrintCKindWord(buf: string, t: Type) returns (r: string)
    ensures r == buf + CKindWord(t)
  {
    r := buf;
    if t.kind == SIGNED {
      r := r + "signed";
    } else if t.kind == UNSIGNED {
      r := r + "unsigned";
    } else if t.kind == FLOAT {
      if t.width == 16 {
        r := r + "half";
      } else if t.width == 32 {
        r := r + "float";
      } else if t.width == 64 {
        r := r + "double";
      }
    } else if t.kind == BFLOAT {
      r := r + "bfloat16";
    }
  }

  /** print_c_type. */
  method PrintCType(buf: string, t: Type) returns (r: string)
    ensures r == buf + CText(t)
  {
    if t.width == 1 {
      r := buf + "bool";
    } else {
      r := PrintCKindWord(buf, t);
      if t.kind == SIGNED || t.kind == UNSIGNED {
        r := r + " ";
        r := r + CWidthWord(t.width);
        assert r == buf + (CKindWord(t) + (" " + CWidthWord(t.width)));
      }
      assert r == buf + CBase(t);
    }
    r := AppendRepeat(r, '*', t.nbTimesPtr);
  }

  // ---------------------------------------------------------------------
  // What the spellings mean.

  /** The number of '*' a spelling ends with. */
  function TrailingStars(s: string): nat {
    if s != [] && s[|s| - 1] == '*' then 1 + TrailingStars(s[..|s| - 1]) else 0
  }

  lemma {:induction false} TrailingStarsAppend(b: string, n: int)
    requires b == [] || b[|b| - 1] != '*'
    ensures TrailingStars(b + Repeat('*', n)) == (if n > 0 then n else 0)
    decreases if n > 0 then n else 0
  {
    if n > 0 {
      var s := b + Repeat('*', n);
      assert s[..|s| - 1] == b + Repeat('*', n - 1);
      TrailingStarsAppend(b, n - 1);
    } else {
      assert b + Repeat('*', n) == b;
    }
  }

  /** The C spelling gives the pointer depth back: it ends in exactly as many
      stars as the descriptor has levels of indirection. */
  lemma CTextPointerDepth(t: Type)
    ensures TrailingStars(CText(t)) == (if t.nbTimesPtr > 0 then t.nbTimesPtr else 0)
  {
    var b := CBase(t);
    if t.width != 1 && IsInt(t) {
      var w := CWidthWord(t.width);
      assert b == CKindWord(t) + (" " + w);
      assert b[|b| - 1] != '*';
    }
    TrailingStarsAppend(b, t.nbTimesPtr);
  }

  /** So does the scalar IR spelling. */
  lemma IrScaTextPointerDepth(t: Type)
    ensures TrailingStars(IrScaText(t)) == (if t.nbTimesPtr > 0 then t.nbTimesPtr else 0)
  {
    var b := IrBase(t);
    if t.kind == SIGNED || t.kind == UNSIGNED {
      var w := IntToString(t.width);
      assert b == "i" + w;
      assert b[|b| - 1] == w[|w| - 1];
      if t.width >= 0 {
        assert IsDigit(w[|w| - 1]);
      } else {
        assert w[1..] == NatToString(-t.width);
        assert IsDigit(w[|w| - 1]);
      }
    }
    TrailingStarsAppend(b, t.nbTimesPtr);
  }

  /** A vector-mode spelling carries the marker right after its `<`; a
      scalar-mode spelling is the scalar one and carries none. */
  lemma IrVecTextMarker(t: Type)
    ensures t.scalarVector != SCALAR ==>
      |IrVecText(t)| >= 11 && IrVecText(t)[1..11] == Placeholder
    ensures t.scalarVector == SCALAR ==> IrVecText(t) == IrScaText(t)
  {
    if t.scalarVector != SCALAR {
      var s := IrVecText(t);
      assert s == "<" + Placeholder + (" x " + IrBase(t) + ">" +
         (if t.nbTimesPtr > 0 then " " + Repeat('*', t.nbTimesPtr) else ""));
    }
  }

  /** The C dialects do not distinguish signedness, or anything else, at
      width 1: every width-1 descriptor is spelled `bool`. */
  lemma CTextWidthOneIsBool(t: Type)
    requires t.width == 1
    ensures CText(t) == "bool" + Repeat('*', t.nbTimesPtr)
  {
  }
}
