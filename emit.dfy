/** The template language of `print` (trusimd.cpp:222-318), as a function of
    the format, the arguments, the indentation and the length of the buffer
    being appended to. The kernel's Print method is proved against Emit. */
module Emitter {
  import opened TypeDesc
  import opened Decimal
  import opened TypeText

  /** The four output dialects, PrintLang in the source. */
  datatype Lang = IRVec | IRSca | CU | CL

  predicate IsIr(lang: Lang) {
    lang == IRVec || lang == IRSca
  }

  /** One variadic argument of print: a C string for S, an int for D and V,
      a type descriptor for T. */
  datatype Arg = S(s: string) | D(d: int) | V(v: int) | T(t: Type)

  /** What one print appends: the text, and the buffer offsets it would push
      onto type_pos (the position of each lane-width marker it writes). */
  datatype Emitted = Emitted(text: string, marks: seq<int>)


  /** How the V directive names variable n. */
  function VarRef(lang: Lang, n: int): string {
    (if IsIr(lang) then "%v" else "v") + IntToString(n)
  }

  /** The T directive. In the vector IR a vector-mode type writes a marker
      one character after the point where it starts. */
  function TypeEmit(lang: Lang, t: Type, base: int): Emitted {
    match lang
    case IRVec => Emitted(IrVecText(t), if t.scalarVector == SCALAR then [] else [base + 1])
    case IRSca => Emitted(IrScaText(t), [])
    case CU => Emitted(CText(t), [])
    case CL => Emitted(CText(t), [])
  }

  predicate IsDirective(c: char) {
    c == 'S' || c == 'D' || c == 'V' || c == 'T'
  }

  /** The directive letter an argument is meant for. */
  function ArgKind(a: Arg): char {
    match a
    case S(_) => 'S'
    case D(_) => 'D'
    case V(_) => 'V'
    case T(_) => 'T'
  }

  /** The int a D or V argument carries (va_arg(ap, int) for both). */
  function IntOf(a: Arg): int
    requires a.D? || a.V?
  {
    if a.D? then a.d else a.v
  }

  /** Directive c applied to argument a. D and V both read an int, so either
      reads the int of either kind of argument, as C would. Any other
      mismatch is undefined behaviour in C (va_arg of the wrong type); here
      it writes nothing. */
  function ArgEmit(lang: Lang, c: char, a: Arg, base: int): Emitted {
    if c == 'S' && a.S? then Emitted(a.s, [])
    else if c == 'D' && (a.D? || a.V?) then Emitted(IntToString(IntOf(a)), [])
    else if c == 'V' && (a.D? || a.V?) then Emitted(VarRef(lang, IntOf(a)), [])
    else if c == 'T' && a.T? then TypeEmit(lang, a.t, base)
    else Emitted([], [])
  }

  function Then(head: string, headMarks: seq<int>, rest: Emitted): Emitted {
    Emitted(head + rest.text, headMarks + rest.marks)
  }

  /** What one pass of print's loop body does: the text (and marks) it
      appends, how many format characters it reads and how many arguments it
      consumes. */
  datatype Head = Head(out: Emitted, width: nat, rest: seq<Arg>)

  /** One iteration of print's loop on a nonempty format: `\x` writes x (a
      trailing backslash writes nothing), `|` writes the indentation, S, D, V
      and T each consume the next argument, and any other character is
      copied. base is the current length of the buffer, so marks are
      absolute buffer offsets. */
  function Step(lang: Lang, fmt: string, args: seq<Arg>, indent: int, base: int): (h: Head)
    requires fmt != []
    ensures 1 <= h.width <= |fmt|
  {
    if fmt[0] == '\\' then
      (if |fmt| == 1 then Head(Emitted([], []), 1, args) else Head(Emitted([fmt[1]], []), 2, args))
    else if fmt[0] == '|' then Head(Emitted(Repeat(' ', indent), []), 1, args)
    else if IsDirective(fmt[0]) then
      (if args == [] then Head(Emitted([], []), 1, args) else Head(ArgEmit(lang, fmt[0], args[0], base), 1, args[1..]))
    else Head(Emitted([fmt[0]], []), 1, args)
  }

  /** print: the loop body applied until the format is used up. */
  function Emit(lang: Lang, fmt: string, args: seq<Arg>, indent: int, base: int): Emitted
    decreases |fmt|
  {
    if fmt == [] then Emitted([], [])
    else
      var h := Step(lang, fmt, args, indent, base);
      Then(h.out.text, h.out.marks, Emit(lang, fmt[h.width..], h.rest, indent, base + |h.out.text|))
  }

  // One step of print, case by case.

  lemma EmitEnd(lang: Lang, args: seq<Arg>, indent: int, base: int)
    ensures Emit(lang, [], args, indent, base) == Emitted([], [])
  {
  }

  lemma EmitCopy(lang: Lang, fmt: string, args: seq<Arg>, indent: int, base: int)
    requires fmt != [] && !Special(fmt[0])
    ensures Emit(lang, fmt, args, indent, base) == Then([fmt[0]], [], Emit(lang, fmt[1..], args, indent, base + 1))
  {
  }

  lemma EmitEscaped(lang: Lang, fmt: string, args: seq<Arg>, indent: int, base: int)
    requires |fmt| >= 2 && fmt[0] == '\\'
    ensures Emit(lang, fmt, args, indent, base) == Then([fmt[1]], [], Emit(lang, fmt[2..], args, indent, base + 1))
  {
  }

  lemma EmitIndent(lang: Lang, fmt: string, args: seq<Arg>, indent: int, base: int)
    requires fmt != [] && fmt[0] == '|'
    ensures Emit(lang, fmt, args, indent, base) ==
      Then(Repeat(' ', indent), [], Emit(lang, fmt[1..], args, indent, base + |Repeat(' ', indent)|))
  {
  }

  lemma EmitDirective(lang: Lang, fmt: string, args: seq<Arg>, indent: int, base: int)
    requires fmt != [] && IsDirective(fmt[0]) && args != []
    ensures var h := ArgEmit(lang, fmt[0], args[0], base);
      Emit(lang, fmt, args, indent, base) == Then(h.text, h.marks, Emit(lang, fmt[1..], args[1..], indent, base + |h.text|))
  {
  }

  /** How far print's loop has got: the first i characters of fmt have
      appended the part of buf past b0, and recorded marks; what is left to
      append is what print does with the rest of the format. */
  predicate Progress(lang: Lang, fmt: string, args: seq<Arg>, indent: int, b0: string,
                     i: nat, rest: seq<Arg>, buf: string, marks: seq<int>) {
    i <= |fmt| && b0 <= buf &&
    Emit(lang, fmt, args, indent, |b0|) == Then(buf[|b0|..], marks, Emit(lang, fmt[i..], rest, indent, |buf|)) &&
    (lang != IRVec ==> marks == [])
  }

  lemma ProgressStart(lang: Lang, fmt: string, args: seq<Arg>, indent: int, b0: string)
    ensures Progress(lang, fmt, args, indent, b0, 0, args, b0, [])
  {
    assert fmt[0..] == fmt;
    assert b0[|b0|..] == [];
  }

  /** One pass of the loop keeps the account. */
  lemma ProgressStep(lang: Lang, fmt: string, args: seq<Arg>, indent: int, b0: string,
                     i: nat, rest: seq<Arg>, buf: string, marks: seq<int>, h: Head)
    requires Progress(lang, fmt, args, indent, b0, i, rest, buf, marks) && i < |fmt|
    requires h == Step(lang, fmt[i..], rest, indent, |buf|)
    ensures Progress(lang, fmt, args, indent, b0, i + h.width, h.rest, buf + h.out.text, marks + h.out.marks)
  {
    StepFactsOf(lang, fmt[i..], rest, indent, |buf|, h);
    ProgressAdvance(lang, fmt, args, indent, b0, i, rest, buf, marks, h);
  }

  /** The same, for any head whose text and marks print's recursion
      produces next. */
  lemma ProgressAdvance(lang: Lang, fmt: string, args: seq<Arg>, indent: int, b0: string,
                        i: nat, rest: seq<Arg>, buf: string, marks: seq<int>, h: Head)
    requires Progress(lang, fmt, args, indent, b0, i, rest, buf, marks) && i < |fmt|
    requires 1 <= h.width <= |fmt[i..]|
    requires Emit(lang, fmt[i..], rest, indent, |buf|) ==
      Then(h.out.text, h.out.marks, Emit(lang, fmt[i..][h.width..], h.rest, indent, |buf| + |h.out.text|))
    requires lang != IRVec ==> h.out.marks == []
    ensures Progress(lang, fmt, args, indent, b0, i + h.width, h.rest, buf + h.out.text, marks + h.out.marks)
  {
    AccountAdvance(lang, fmt, args, indent, b0, i, rest, buf, marks, h);
    ProgressFrom(lang, fmt, args, indent, b0, i, buf, marks, h);
  }

  /** The account after the pass, with the rest of the format still
      written as a slice of a slice. */
  lemma AccountAdvance(lang: Lang, fmt: string, args: seq<Arg>, indent: int, b0: string,
                       i: nat, rest: seq<Arg>, buf: string, marks: seq<int>, h: Head)
    requires Progress(lang, fmt, args, indent, b0, i, rest, buf, marks) && i < |fmt|
    requires h.width <= |fmt[i..]|
    requires Emit(lang, fmt[i..], rest, indent, |buf|) ==
      Then(h.out.text, h.out.marks, Emit(lang, fmt[i..][h.width..], h.rest, indent, |buf| + |h.out.text|))
    ensures Emit(lang, fmt, args, indent, |b0|) ==
      Then((buf + h.out.text)[|b0|..], marks + h.out.marks, Emit(lang, fmt[i..][h.width..], h.rest, indent, |buf| + |h.out.text|))
  {
    DropAppend(buf, h.out.text, |b0|);
    ThenChainAppend(Emit(lang, fmt, args, indent, |b0|), buf[|b0|..], marks, Emit(lang, fmt[i..], rest, indent, |buf|),
      h.out.text, h.out.marks, Emit(lang, fmt[i..][h.width..], h.rest, indent, |buf| + |h.out.text|), (buf + h.out.text)[|b0|..]);
  }

  /** The account after the pass, in the loop's own terms. */
  lemma ProgressFrom(lang: Lang, fmt: string, args: seq<Arg>, indent: int, b0: string,
                     i: nat, buf: string, marks: seq<int>, h: Head)
    requires i + h.width <= |fmt| && b0 <= buf
    requires (lang != IRVec ==> marks == []) && (lang != IRVec ==> h.out.marks == [])
    requires Emit(lang, fmt, args, indent, |b0|) ==
      Then((buf + h.out.text)[|b0|..], marks + h.out.marks, Emit(lang, fmt[i..][h.width..], h.rest, indent, |buf| + |h.out.text|))
    ensures Progress(lang, fmt, args, indent, b0, i + h.width, h.rest, buf + h.out.text, marks + h.out.marks)
  {
    EmitShift(lang, fmt, i, h.width, h.rest, indent, buf, h.out.text);
  }

  /** print of the rest of a format does not depend on how the rest is
      sliced off. */
  lemma EmitShift(lang: Lang, fmt: string, i: nat, w: nat, args: seq<Arg>, indent: int, buf: string, more: string)
    requires i + w <= |fmt|
    ensures Emit(lang, fmt[i + w..], args, indent, |buf + more|) == Emit(lang, fmt[i..][w..], args, indent, |buf| + |more|)
  {
    DropDrop(fmt, i, w);
  }

  lemma ThenChainAppend(e: Emitted, d: string, m: seq<int>, t: Emitted, ht: string, hm: seq<int>, t2: Emitted, d2: string)
    requires e == Then(d, m, t) && t == Then(ht, hm, t2) && d2 == d + ht
    ensures e == Then(d2, m + hm, t2)
  {
    ThenAppend(d, m, ht, hm, t2);
  }

  lemma DropDrop(s: string, i: nat, w: nat)
    requires i + w <= |s|
    ensures s[i..][w..] == s[i + w..]
  {
  }

  lemma DropAppend(a: string, b: string, n: nat)
    requires n <= |a|
    ensures (a + b)[n..] == a[n..] + b
  {
  }

  /** At the end of the format, the account is what print appends. */
  lemma ProgressEnd(lang: Lang, fmt: string, args: seq<Arg>, indent: int, b0: string,
                    rest: seq<Arg>, buf: string, marks: seq<int>)
    requires Progress(lang, fmt, args, indent, b0, |fmt|, rest, buf, marks)
    ensures Emit(lang, fmt, args, indent, |b0|) == Emitted(buf[|b0|..], marks)
    ensures buf == b0 + buf[|b0|..]
  {
    assert fmt[|fmt|..] == [];
  }

  /** The directive letters of a format, escapes skipped. */
  function Directives(fmt: string): string
    decreases |fmt|
  {
    if fmt == [] then []
    else if fmt[0] == '\\' then (if |fmt| == 1 then [] else Directives(fmt[2..]))
    else if IsDirective(fmt[0]) then [fmt[0]] + Directives(fmt[1..])
    else Directives(fmt[1..])
  }

  function ArgKinds(args: seq<Arg>): (r: string)
    ensures |r| == |args| && forall i :: 0 <= i < |args| ==> r[i] == ArgKind(args[i])
  {
    seq(|args|, i requires 0 <= i < |args| => ArgKind(args[i]))
  }

  /** What a caller of print owes it: one argument per directive, in order
      and of the matching kind. */
  predicate Fits(fmt: string, args: seq<Arg>) {
    Directives(fmt) == ArgKinds(args)
  }

  // ---------------------------------------------------------------------
  // Markers.

  /** A copy of the placeholder starts at position p of text. */
  predicate PlaceholderAt(text: string, p: int) {
    0 <= p && p + |Placeholder| <= |text| && text[p .. p + |Placeholder|] == Placeholder
  }

  /** Every mark, taken relative to base, starts a copy of the placeholder
      inside text. With base 0 this is the type_pos invariant of a buffer. */
  predicate MarksIn(text: string, marks: seq<int>, base: int)
    decreases |marks|
  {
    marks == [] || (PlaceholderAt(text, marks[0] - base) && MarksIn(text, marks[1..], base))
  }

  /** The recursive definition, read as a statement about every mark. */
  lemma {:induction false} MarksInEach(text: string, marks: seq<int>, base: int, k: int)
    requires MarksIn(text, marks, base) && 0 <= k < |marks|
    ensures PlaceholderAt(text, marks[k] - base)
    decreases |marks|
  {
    if k > 0 {
      MarksInEach(text, marks[1..], base, k - 1);
    }
  }

  lemma {:induction false} MarksPrefix(a: string, b: string, m: seq<int>, base: int)
    requires MarksIn(a, m, base)
    ensures MarksIn(a + b, m, base)
    decreases |m|
  {
    if m != [] {
      var p := m[0] - base;
      assert (a + b)[p .. p + |Placeholder|] == a[p .. p + |Placeholder|];
      MarksPrefix(a, b, m[1..], base);
    }
  }

  lemma {:induction false} MarksSuffix(a: string, b: string, m: seq<int>, base: int)
    requires MarksIn(b, m, base + |a|)
    ensures MarksIn(a + b, m, base)
    decreases |m|
  {
    if m != [] {
      var p := m[0] - base - |a|;
      assert (a + b)[|a| + p .. |a| + p + |Placeholder|] == b[p .. p + |Placeholder|];
      MarksSuffix(a, b, m[1..], base);
    }
  }

  lemma {:induction false} MarksAppend(t: string, m1: seq<int>, m2: seq<int>, base: int)
    requires MarksIn(t, m1, base) && MarksIn(t, m2, base)
    ensures MarksIn(t, m1 + m2, base)
    decreases |m1|
  {
    if m1 == [] {
      assert m1 + m2 == m2;
    } else {
      assert (m1 + m2)[1..] == m1[1..] + m2;
      MarksAppend(t, m1[1..], m2, base);
    }
  }

  lemma MarksInOne(text: string, x: int)
    requires PlaceholderAt(text, 0)
    ensures MarksIn(text, [x], x)
  {
    assert [x][1..] == [];
    assert PlaceholderAt(text, [x][0] - x);
  }

  lemma PlaceholderAfter(a: string, t: string)
    requires PlaceholderAt(t, 0)
    ensures PlaceholderAt(a + t, |a|)
  {
    assert (a + t)[|a|..|a| + |Placeholder|] == t[0..|Placeholder|];
  }

  /** Marks of two consecutive pieces stay valid in their concatenation. */
  lemma MarksConcat(a: string, am: seq<int>, b: string, bm: seq<int>, base: int)
    requires MarksIn(a, am, base) && MarksIn(b, bm, base + |a|)
    ensures MarksIn(a + b, am + bm, base)
  {
    MarksPrefix(a, b, am, base);
    MarksSuffix(a, b, bm, base);
    MarksAppend(a + b, am, bm, base);
  }

  /** A mark recorded right where a placeholder is appended is valid. */
  lemma MarkAppended(b: string, marks: seq<int>, t: string, n: int)
    requires MarksIn(b, marks, 0) && PlaceholderAt(t, 0) && n == |b|
    ensures MarksIn(b + t, marks + [n], 0)
  {
    MarksInOne(t, n);
    MarksConcat(b, marks, t, [n], 0);
  }

  /** A buffer, a head, then a tail that starts with the placeholder: a
      mark at the end of the head is valid, and the earlier ones stay so. */
  lemma MarkAfterHead(b: string, marks: seq<int>, head: string, tail: string, n: int)
    requires MarksIn(b, marks, 0) && PlaceholderAt(tail, 0) && n == |b| + |head|
    ensures MarksIn(b + head + tail, marks + [n], 0)
  {
    MarksPrefix(b, head, marks, 0);
    MarkAppended(b + head, marks, tail, n);
  }

  lemma TypeEmitMarks(lang: Lang, t: Type, base: int)
    ensures var e := TypeEmit(lang, t, base);
      MarksIn(e.text, e.marks, base) && (lang != IRVec ==> e.marks == [])
  {
    IrVecTextMarker(t);
  }

  lemma StepMarks(lang: Lang, fmt: string, args: seq<Arg>, indent: int, base: int)
    requires fmt != []
    ensures var h := Step(lang, fmt, args, indent, base).out;
      MarksIn(h.text, h.marks, base) && (lang != IRVec ==> h.marks == [])
  {
    if IsDirective(fmt[0]) && args != [] && fmt[0] == 'T' && args[0].T? {
      TypeEmitMarks(lang, args[0].t, base);
    }
  }

  /** print's loop, one pass at a time. */
  lemma EmitUnfold(lang: Lang, fmt: string, args: seq<Arg>, indent: int, base: int)
    requires fmt != []
    ensures var h := Step(lang, fmt, args, indent, base);
      Emit(lang, fmt, args, indent, base) ==
      Then(h.out.text, h.out.marks, Emit(lang, fmt[h.width..], h.rest, indent, base + |h.out.text|))
  {
  }

  /** One pass of print's loop, everything that is known about it. */
  lemma StepFactsOf(lang: Lang, fmt: string, args: seq<Arg>, indent: int, base: int, h: Head)
    requires fmt != [] && h == Step(lang, fmt, args, indent, base)
    ensures 1 <= h.width <= |fmt|
    ensures Emit(lang, fmt, args, indent, base) ==
      Then(h.out.text, h.out.marks, Emit(lang, fmt[h.width..], h.rest, indent, base + |h.out.text|))
    ensures MarksIn(h.out.text, h.out.marks, base) && (lang != IRVec ==> h.out.marks == [])
  {
    EmitUnfold(lang, fmt, args, indent, base);
    StepMarks(lang, fmt, args, indent, base);
  }


  lemma StepFacts(lang: Lang, fmt: string, args: seq<Arg>, indent: int, base: int) returns (h: Head)
    requires fmt != []
    ensures h == Step(lang, fmt, args, indent, base)
    ensures 1 <= h.width <= |fmt|
    ensures Emit(lang, fmt, args, indent, base) ==
      Then(h.out.text, h.out.marks, Emit(lang, fmt[h.width..], h.rest, indent, base + |h.out.text|))
    ensures MarksIn(h.out.text, h.out.marks, base) && (lang != IRVec ==> h.out.marks == [])
  {
    h := Step(lang, fmt, args, indent, base);
    EmitUnfold(lang, fmt, args, indent, base);
    StepMarks(lang, fmt, args, indent, base);
  }

  lemma ThenMarks(lang: Lang, head: string, headMarks: seq<int>, r: Emitted, base: int)
    requires MarksIn(head, headMarks, base) && (lang != IRVec ==> headMarks == [])
    requires MarksIn(r.text, r.marks, base + |head|) && (lang != IRVec ==> r.marks == [])
    ensures var e := Then(head, headMarks, r);
      MarksIn(e.text, e.marks, base) && (lang != IRVec ==> e.marks == [])
  {
    MarksConcat(head, headMarks, r.text, r.marks, base);
  }

  /** What holds of everything print writes: each mark starts a
      placeholder in the text, and only the vector IR has marks. */
  predicate Marked(lang: Lang, e: Emitted, base: int) {
    MarksIn(e.text, e.marks, base) && (lang != IRVec ==> e.marks == [])
  }

  lemma ThenMarked(lang: Lang, h: Head, r: Emitted, base: int)
    requires MarksIn(h.out.text, h.out.marks, base) && (lang != IRVec ==> h.out.marks == [])
    requires Marked(lang, r, base + |h.out.text|)
    ensures Marked(lang, Then(h.out.text, h.out.marks, r), base)
  {
    ThenMarks(lang, h.out.text, h.out.marks, r, base);
  }

  /** Each mark print produces points at a placeholder in what it wrote, and
      only the vector IR produces marks. */
  lemma {:induction false} EmitMarks(lang: Lang, fmt: string, args: seq<Arg>, indent: int, base: int, e: Emitted)
    requires e == Emit(lang, fmt, args, indent, base)
    ensures Marked(lang, e, base)
    decreases |fmt|
  {
    if fmt == [] {
      EmitEnd(lang, args, indent, base);
    } else {
      var h := StepFacts(lang, fmt, args, indent, base);
      var r := Emit(lang, fmt[h.width..], h.rest, indent, base + |h.out.text|);
      EmitMarks(lang, fmt[h.width..], h.rest, indent, base + |h.out.text|, r);
      ThenMarked(lang, h, r, base);
    }
  }

  /** The number of vector-mode type arguments. */
  function VectorCount(args: seq<Arg>): nat {
    if args == [] then 0
    else (if args[0].T? && args[0].t.scalarVector != SCALAR then 1 else 0) + VectorCount(args[1..])
  }

  /** Arguments that hold no type hold no vector-mode type. */
  lemma {:induction false} VectorCountNoTypes(args: seq<Arg>)
    requires forall i :: 0 <= i < |args| ==> !args[i].T?
    ensures VectorCount(args) == 0
  {
    if args != [] {
      VectorCountNoTypes(args[1..]);
    }
  }

  /** Two variable arguments, as the prologues and epilogues pass, hold no
      vector-mode type. */
  lemma VectorCountTwoVars(a: int, b: int)
    ensures VectorCount([V(a), V(b)]) == 0
  {
    assert [V(b)][1..] == [];
    assert VectorCount([V(b)]) == 0;
    assert [V(a), V(b)][1..] == [V(b)];
  }

  /** A type then a variable, as a parameter line passes: one vector-mode
      type when the type is in vector mode. */
  lemma VectorCountTypeVar(t: Type, b: int)
    ensures VectorCount([T(t), V(b)]) == (if t.scalarVector != SCALAR then 1 else 0)
  {
    assert [V(b)][1..] == [];
    assert VectorCount([V(b)]) == 0;
    assert [T(t), V(b)][1..] == [V(b)];
  }

  /** find on a buffer that has grown from one holding a placeholder at
      offset q: the answer is at or before q, so inside the old buffer. */
  lemma FindInOld(b: string, x: string, q: int)
    requires PlaceholderAt(b, q)
    ensures 0 <= Find(b + x, Placeholder) <= q && Find(b + x, Placeholder) + |Placeholder| <= |b|
  {
    assert (b + x)[q..q + |Placeholder|] == b[q..q + |Placeholder|];
    FindFirst(b + x, Placeholder, q);
  }

  lemma ArgKindsTail(args: seq<Arg>)
    requires args != []
    ensures ArgKinds(args) == [ArgKind(args[0])] + ArgKinds(args[1..])
  {
  }

  /** One loop pass over a fitting call leaves a fitting call, and marks the
      vector-mode type argument it consumed, if any. */
  lemma StepFits(fmt: string, args: seq<Arg>, indent: int, base: int)
    requires fmt != [] && Fits(fmt, args)
    ensures var h := Step(IRVec, fmt, args, indent, base);
      Fits(fmt[h.width..], h.rest) && |h.out.marks| + VectorCount(h.rest) == VectorCount(args)
  {
    if fmt[0] == '\\' {
    } else if fmt[0] == '|' {
    } else if IsDirective(fmt[0]) {
      assert |ArgKinds(args)| >= 1;
      ArgKindsTail(args);
    } else {
    }
  }

  /** A print whose arguments fit its format records exactly one mark per
      vector-mode type argument when it writes the vector IR. */
  lemma {:induction false} EmitMarkCount(fmt: string, args: seq<Arg>, indent: int, base: int)
    requires Fits(fmt, args)
    ensures |Emit(IRVec, fmt, args, indent, base).marks| == VectorCount(args)
    decreases |fmt|
  {
    if fmt == [] {
      assert |ArgKinds(args)| == 0;
    } else {
      var h := Step(IRVec, fmt, args, indent, base);
      StepFits(fmt, args, indent, base);
      EmitMarkCount(fmt[h.width..], h.rest, indent, base + |h.out.text|);
    }
  }

  // ---------------------------------------------------------------------
  // Formats built from tokens: the format strings of the source are written
  // as token lists and spelled into characters, escaping any literal
  // character that print would otherwise read as a directive.

  /** A literal run of characters, the `|` indentation mark, or a hole for
      one argument, named by its directive letter. */
  datatype Tok = Chars(s: string) | Indent | Hole(c: char)

  const Str: Tok := Hole('S')
  const Dec: Tok := Hole('D')
  const Var: Tok := Hole('V')
  const Typ: Tok := Hole('T')

  predicate WellFormedTok(k: Tok) {
    k.Hole? ==> IsDirective(k.c)
  }

  /** Every hole is named by a directive letter. */
  predicate WellFormed(toks: seq<Tok>) {
    forall j :: 0 <= j < |toks| ==> WellFormedTok(toks[j])
  }

  predicate Special(c: char) {
    c == '\\' || c == '|' || IsDirective(c)
  }

  /** How a literal character is written in a format: special characters
      get a backslash. */
  function EscChar(c: char): string {
    if Special(c) then ['\\', c] else [c]
  }

  function Concat(parts: seq<string>): string {
    if parts == [] then [] else parts[0] + Concat(parts[1..])
  }

  /** A literal run written as a format: each character escaped in turn. */
  function Escape(s: string): string {
    Concat(seq(|s|, i requires 0 <= i < |s| => EscChar(s[i])))
  }

  lemma EscapeCons(s: string)
    requires s != []
    ensures Escape(s) == EscChar(s[0]) + Escape(s[1..])
  {
    var parts := seq(|s|, i requires 0 <= i < |s| => EscChar(s[i]));
    assert parts[1..] == seq(|s| - 1, i requires 0 <= i < |s| - 1 => EscChar(s[1..][i]));
  }

  lemma EscapeEmpty(s: string)
    requires s == []
    ensures Escape(s) == []
  {
    assert seq(|s|, i requires 0 <= i < |s| => EscChar(s[i])) == [];
  }

  lemma AppendAssoc(a: string, b: string, c: string)
    ensures (a + b) + c == a + (b + c)
  {
  }

  lemma MarksAssoc(a: seq<int>, b: seq<int>, c: seq<int>)
    ensures (a + b) + c == a + (b + c)
  {
  }

  function TokText(k: Tok): string {
    match k
    case Chars(s) => Escape(s)
    case Indent => "|"
    case Hole(c) => [c]
  }

  function SpellFrom(toks: seq<Tok>, i: nat): string
    requires i <= |toks|
    decreases |toks| - i
  {
    if i == |toks| then [] else TokText(toks[i]) + SpellFrom(toks, i + 1)
  }

  /** The format string a token list stands for. */
  function Spell(toks: seq<Tok>): string {
    SpellFrom(toks, 0)
  }

  /** The directive letters of a token list from position i. */
  function TokDirectives(toks: seq<Tok>, i: nat): string
    requires i <= |toks|
    decreases |toks| - i
  {
    if i == |toks| then []
    else if toks[i].Hole? then [toks[i].c] + TokDirectives(toks, i + 1)
    else TokDirectives(toks, i + 1)
  }

  /** What print does with one token's spelling. */
  function TokHead(lang: Lang, k: Tok, args: seq<Arg>, indent: int, base: int): Head {
    match k
    case Chars(s) => Head(Emitted(s, []), 1, args)
    case Indent => Head(Emitted(Repeat(' ', indent), []), 1, args)
    case Hole(c) =>
      if args == [] then Head(Emitted([], []), 1, args)
      else Head(ArgEmit(lang, c, args[0], base), 1, args[1..])
  }

  /** print, read token by token. */
  function EmitToks(lang: Lang, toks: seq<Tok>, i: nat, args: seq<Arg>, indent: int, base: int): Emitted
    requires i <= |toks|
    decreases |toks| - i
  {
    if i == |toks| then Emitted([], [])
    else
      var h := TokHead(lang, toks[i], args, indent, base);
      Then(h.out.text, h.out.marks, EmitToks(lang, toks, i + 1, h.rest, indent, base + |h.out.text|))
  }

  /** The first character and the rest of a format that starts with `c`. */
  lemma HeadTail(c: char, tail: string)
    ensures ([c] + tail)[0] == c && ([c] + tail)[1..] == tail
  {
  }

  /** The first two characters and the rest of a format that starts with `\\c`. */
  lemma EscapedHeadTail(c: char, tail: string)
    ensures (['\\', c] + tail)[0] == '\\' && (['\\', c] + tail)[1] == c && (['\\', c] + tail)[2..] == tail
  {
  }

  lemma EscapedCharStep(lang: Lang, c: char, tail: string, args: seq<Arg>, indent: int, base: int)
    ensures Emit(lang, ['\\', c] + tail, args, indent, base) == Then([c], [], Emit(lang, tail, args, indent, base + 1))
  {
    EscapedHeadTail(c, tail);
    EmitEscaped(lang, ['\\', c] + tail, args, indent, base);
  }

  lemma PlainCharStep(lang: Lang, c: char, tail: string, args: seq<Arg>, indent: int, base: int)
    requires !Special(c)
    ensures Emit(lang, [c] + tail, args, indent, base) == Then([c], [], Emit(lang, tail, args, indent, base + 1))
  {
    HeadTail(c, tail);
    EmitCopy(lang, [c] + tail, args, indent, base);
  }

  lemma DirectiveCharStep(lang: Lang, c: char, tail: string, args: seq<Arg>, indent: int, base: int)
    requires IsDirective(c) && args != []
    ensures var h := ArgEmit(lang, c, args[0], base);
      Emit(lang, [c] + tail, args, indent, base) == Then(h.text, h.marks, Emit(lang, tail, args[1..], indent, base + |h.text|))
  {
    HeadTail(c, tail);
    EmitDirective(lang, [c] + tail, args, indent, base);
  }

  lemma IndentCharStep(lang: Lang, tail: string, args: seq<Arg>, indent: int, base: int)
    ensures Emit(lang, "|" + tail, args, indent, base) ==
      Then(Repeat(' ', indent), [], Emit(lang, tail, args, indent, base + |Repeat(' ', indent)|))
  {
    HeadTail('|', tail);
    EmitIndent(lang, ['|'] + tail, args, indent, base);
  }

  lemma EscapeStep(lang: Lang, s: string, rest: string, args: seq<Arg>, indent: int, base: int)
    requires s != []
    ensures Emit(lang, Escape(s) + rest, args, indent, base) ==
            Then([s[0]], [], Emit(lang, Escape(s[1..]) + rest, args, indent, base + 1))
  {
    var tail := Escape(s[1..]) + rest;
    EscapeCons(s);
    AppendAssoc(EscChar(s[0]), Escape(s[1..]), rest);
    if Special(s[0]) {
      EscapedCharStep(lang, s[0], tail, args, indent, base);
    } else {
      PlainCharStep(lang, s[0], tail, args, indent, base);
    }
  }

  lemma ThenThen(a: string, b: string, r: Emitted)
    ensures Then(a, [], Then(b, [], r)) == Then(a + b, [], r)
  {
    assert a + (b + r.text) == (a + b) + r.text;
  }

  /** Two pieces written one after the other, marks included. */
  lemma ThenAppend(a: string, am: seq<int>, b: string, bm: seq<int>, r: Emitted)
    ensures Then(a, am, Then(b, bm, r)) == Then(a + b, am + bm, r)
  {
    assert a + (b + r.text) == (a + b) + r.text;
    assert am + (bm + r.marks) == (am + bm) + r.marks;
  }

  /** An escaped string reads back as itself. */
  lemma ThenChain(e0: Emitted, e1: Emitted, r: Emitted, s: string)
    requires s != [] && e0 == Then([s[0]], [], e1) && e1 == Then(s[1..], [], r)
    ensures e0 == Then(s, [], r)
  {
    assert [s[0]] + (s[1..] + r.text) == s + r.text;
  }

  lemma {:induction false} EmitEscape(lang: Lang, s: string, rest: string, args: seq<Arg>, indent: int, base: int)
    ensures Emit(lang, Escape(s) + rest, args, indent, base) ==
            Then(s, [], Emit(lang, rest, args, indent, base + |s|))
    decreases |s|
  {
    if s == [] {
      EscapeEmpty(s);
      assert Escape(s) + rest == rest;
    } else {
      EmitEscape(lang, s[1..], rest, args, indent, base + 1);
      EscapeStep(lang, s, rest, args, indent, base);
      ThenChain(Emit(lang, Escape(s) + rest, args, indent, base),
                Emit(lang, Escape(s[1..]) + rest, args, indent, base + 1),
                Emit(lang, rest, args, indent, base + |s|), s);
    }
  }

  lemma DirectivesEscapeStep(s: string, rest: string)
    requires s != []
    ensures Directives(Escape(s) + rest) == Directives(Escape(s[1..]) + rest)
  {
    var tail := Escape(s[1..]) + rest;
    EscapeCons(s);
    AppendAssoc(EscChar(s[0]), Escape(s[1..]), rest);
    if Special(s[0]) {
      EscapedHeadTail(s[0], tail);
    } else {
      HeadTail(s[0], tail);
    }
  }

  lemma {:induction false} DirectivesEscape(s: string, rest: string)
    ensures Directives(Escape(s) + rest) == Directives(rest)
    decreases |s|
  {
    if s == [] {
      EscapeEmpty(s);
      assert Escape(s) + rest == rest;
    } else {
      DirectivesEscape(s[1..], rest);
      DirectivesEscapeStep(s, rest);
    }
  }

  /** Printing one token's spelling, then whatever follows it. */
  predicate TokStepHolds(lang: Lang, k: Tok, rest: string, args: seq<Arg>, indent: int, base: int) {
    var h := TokHead(lang, k, args, indent, base);
    Emit(lang, TokText(k) + rest, args, indent, base) ==
    Then(h.out.text, h.out.marks, Emit(lang, rest, h.rest, indent, base + |h.out.text|))
  }

  lemma TokStepChars(lang: Lang, k: Tok, rest: string, args: seq<Arg>, indent: int, base: int)
    requires k.Chars?
    ensures TokStepHolds(lang, k, rest, args, indent, base)
  {
    EmitEscape(lang, k.s, rest, args, indent, base);
  }

  lemma TokStepIndent(lang: Lang, k: Tok, rest: string, args: seq<Arg>, indent: int, base: int)
    requires k.Indent?
    ensures TokStepHolds(lang, k, rest, args, indent, base)
  {
    IndentCharStep(lang, rest, args, indent, base);
    assert TokText(k) == "|";
    assert TokHead(lang, k, args, indent, base) == Head(Emitted(Repeat(' ', indent), []), 1, args);
  }

  lemma TokStepDirective(lang: Lang, k: Tok, rest: string, args: seq<Arg>, indent: int, base: int)
    requires k.Hole? && IsDirective(k.c) && args != []
    ensures TokStepHolds(lang, k, rest, args, indent, base)
  {
    DirectiveCharStep(lang, k.c, rest, args, indent, base);
  }

  lemma TokStepNoArg(lang: Lang, k: Tok, rest: string, args: seq<Arg>, indent: int, base: int)
    requires k.Hole? && IsDirective(k.c) && args == []
    ensures TokStepHolds(lang, k, rest, args, indent, base)
  {
    HeadTail(k.c, rest);
    var h := Step(lang, [k.c] + rest, [], indent, base);
    assert h == Head(Emitted([], []), 1, []);
  }

  lemma TokStep(lang: Lang, k: Tok, rest: string, args: seq<Arg>, indent: int, base: int)
    requires WellFormedTok(k)
    ensures TokStepHolds(lang, k, rest, args, indent, base)
  {
    if k.Chars? {
      TokStepChars(lang, k, rest, args, indent, base);
    } else if k.Indent? {
      TokStepIndent(lang, k, rest, args, indent, base);
    } else if args != [] {
      TokStepDirective(lang, k, rest, args, indent, base);
    } else {
      TokStepNoArg(lang, k, rest, args, indent, base);
    }
  }

  /** One token of a spelled list, given the rest of the list. */
  lemma SpellFromStep(toks: seq<Tok>, i: nat)
    requires i < |toks|
    ensures SpellFrom(toks, i) == TokText(toks[i]) + SpellFrom(toks, i + 1)
  {
  }

  lemma SpellStep(lang: Lang, toks: seq<Tok>, i: nat, args: seq<Arg>, indent: int, base: int)
    requires i < |toks| && WellFormedTok(toks[i])
    requires var h := TokHead(lang, toks[i], args, indent, base);
      Emit(lang, SpellFrom(toks, i + 1), h.rest, indent, base + |h.out.text|) ==
      EmitToks(lang, toks, i + 1, h.rest, indent, base + |h.out.text|)
    ensures Emit(lang, SpellFrom(toks, i), args, indent, base) == EmitToks(lang, toks, i, args, indent, base)
  {
    var h := TokHead(lang, toks[i], args, indent, base);
    SpellFromStep(toks, i);
    TokStep(lang, toks[i], SpellFrom(toks, i + 1), args, indent, base);
    EmitToksStep(lang, toks, i, args, indent, base, h);
  }

  /** Printing the spelling of a token list is printing the tokens. */
  lemma {:induction false} EmitSpell(lang: Lang, toks: seq<Tok>, i: nat, args: seq<Arg>, indent: int, base: int)
    requires i <= |toks| && WellFormed(toks)
    ensures Emit(lang, SpellFrom(toks, i), args, indent, base) == EmitToks(lang, toks, i, args, indent, base)
    decreases |toks| - i
  {
    if i < |toks| {
      var h := TokHead(lang, toks[i], args, indent, base);
      EmitSpell(lang, toks, i + 1, h.rest, indent, base + |h.out.text|);
      SpellStep(lang, toks, i, args, indent, base);
    }
  }

  /** The text print writes for a token list: the marks aside, it does
      not depend on where in the buffer it starts. */
  function ToksText(lang: Lang, toks: seq<Tok>, i: nat, args: seq<Arg>, indent: int): string
    requires i <= |toks|
    decreases |toks| - i
  {
    if i == |toks| then []
    else
      var h := TokHead(lang, toks[i], args, indent, 0);
      h.out.text + ToksText(lang, toks, i + 1, h.rest, indent)
  }

  lemma TokHeadText(lang: Lang, k: Tok, args: seq<Arg>, indent: int, base: int)
    ensures TokHead(lang, k, args, indent, base).out.text == TokHead(lang, k, args, indent, 0).out.text
    ensures TokHead(lang, k, args, indent, base).rest == TokHead(lang, k, args, indent, 0).rest
  {
  }

  lemma EmitToksStep(lang: Lang, toks: seq<Tok>, i: nat, args: seq<Arg>, indent: int, base: int, h: Head)
    requires i < |toks| && h == TokHead(lang, toks[i], args, indent, base)
    ensures EmitToks(lang, toks, i, args, indent, base) ==
      Then(h.out.text, h.out.marks, EmitToks(lang, toks, i + 1, h.rest, indent, base + |h.out.text|))
  {
  }

  lemma ToksTextStep(lang: Lang, toks: seq<Tok>, i: nat, args: seq<Arg>, indent: int, base: int, h: Head)
    requires i < |toks| && h == TokHead(lang, toks[i], args, indent, base)
    ensures ToksText(lang, toks, i, args, indent) == h.out.text + ToksText(lang, toks, i + 1, h.rest, indent)
  {
    TokHeadText(lang, toks[i], args, indent, base);
  }

  lemma ThenText(e: Emitted, head: string, m: seq<int>, r: Emitted, t: string, rt: string)
    requires e == Then(head, m, r) && r.text == rt && t == head + rt
    ensures e.text == t
  {
  }

  lemma {:induction false} EmitToksText(lang: Lang, toks: seq<Tok>, i: nat, args: seq<Arg>, indent: int, base: int)
    requires i <= |toks|
    ensures EmitToks(lang, toks, i, args, indent, base).text == ToksText(lang, toks, i, args, indent)
    decreases |toks| - i
  {
    if i < |toks| {
      var h := TokHead(lang, toks[i], args, indent, base);
      var next := base + |h.out.text|;
      EmitToksText(lang, toks, i + 1, h.rest, indent, next);
      EmitToksStep(lang, toks, i, args, indent, base, h);
      ToksTextStep(lang, toks, i, args, indent, base, h);
      ThenText(EmitToks(lang, toks, i, args, indent, base), h.out.text, h.out.marks,
        EmitToks(lang, toks, i + 1, h.rest, indent, next),
        ToksText(lang, toks, i, args, indent), ToksText(lang, toks, i + 1, h.rest, indent));
    }
  }

  /** What printing a spelled token list appends, read token by token. */
  lemma SpellText(lang: Lang, toks: seq<Tok>, args: seq<Arg>, indent: int, base: int)
    requires WellFormed(toks)
    ensures Emit(lang, Spell(toks), args, indent, base).text == ToksText(lang, toks, 0, args, indent)
  {
    EmitSpell(lang, toks, 0, args, indent, base);
    EmitToksText(lang, toks, 0, args, indent, base);
  }

  /** The directive letters of one token's spelling, then of what follows. */
  lemma DirectivesTok(k: Tok, rest: string)
    requires WellFormedTok(k)
    ensures Directives(TokText(k) + rest) == (if k.Hole? then [k.c] else []) + Directives(rest)
  {
    match k
    case Chars(s) =>
      DirectivesEscape(s, rest);
    case Indent =>
      HeadTail('|', rest);
    case Hole(c) =>
      HeadTail(c, rest);
  }

  /** The directives of a spelled token list are those of its tokens. */
  lemma {:induction false} DirectivesSpell(toks: seq<Tok>, i: nat)
    requires i <= |toks| && WellFormed(toks)
    ensures Directives(SpellFrom(toks, i)) == TokDirectives(toks, i)
    decreases |toks| - i
  {
    if i < |toks| {
      DirectivesSpell(toks, i + 1);
      assert WellFormedTok(toks[i]);
      DirectivesTok(toks[i], SpellFrom(toks, i + 1));
    }
  }

  lemma {:induction false} TokDirectivesShift(a: seq<Tok>, b: seq<Tok>, j: nat)
    requires j <= |b|
    ensures TokDirectives(a + b, |a| + j) == TokDirectives(b, j)
    decreases |b| - j
  {
    if j < |b| {
      assert (a + b)[|a| + j] == b[j];
      TokDirectivesShift(a, b, j + 1);
    }
  }

  /** The directives of two adjacent token lists, as of two adjacent string
      literals, are those of the first followed by those of the second. */
  lemma {:induction false} TokDirectivesAppend(a: seq<Tok>, b: seq<Tok>, i: nat)
    requires i <= |a|
    ensures TokDirectives(a + b, i) == TokDirectives(a, i) + TokDirectives(b, 0)
    decreases |a| - i
  {
    if i == |a| {
      TokDirectivesShift(a, b, 0);
    } else {
      assert (a + b)[i] == a[i];
      TokDirectivesAppend(a, b, i + 1);
    }
  }

  /** A spelled template fits arguments that match its directive tokens. */
  lemma SpellFits(toks: seq<Tok>, args: seq<Arg>)
    requires WellFormed(toks) && TokDirectives(toks, 0) == ArgKinds(args)
    ensures Fits(Spell(toks), args)
  {
    DirectivesSpell(toks, 0);
  }
}
