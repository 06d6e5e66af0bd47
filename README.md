# trusimd kernel builder, in Dafny

trusimd turns a few calls into a GPU or CPU kernel. One builder session writes
four programs side by side:

- the vector LLVM IR;
- the scalar LLVM IR;
- CUDA C;
- OpenCL C.

The session keeps several pieces of state besides the texts:

- the type of every variable id;
- the set of user variables that live in memory;
- the C expression of each id;
- the offsets of the ten-character lane-width placeholder `??????????` in the vector IR.

This project models the builder of `trusimd.cpp`, the variable and kernel classes of `trusimd.hpp` on top of it, and proves properties of both.

Modules, bottom up:

- **`TypeDesc`** (types.dfy): the type descriptor of `trusimd.h` and its predicates.
- **`Decimal`** (decimal.dfy): the decimal writing `print_T` does, and `std::string::find`.
- **`TypeText`** (typetext.dfy): the per-dialect spelling of types.
  - Each spelling is a function.
  - The appending `print_*_type` routines are methods with loops, proved against those functions.
- **`Emitter`** (emit.dfy): the template language of `print`, character by character.
  - It covers `\`, `|` and the directives `S`, `D`, `V` and `T`.
  - It records the placeholder offsets `print` pushes onto `type_pos`.
  - Templates are also read token by token.
- **`Templates`** (templates.dfy): every format string the builder passes to `print`, as a token list that spells exactly that literal. The module also proves that each call's arguments line up with its format's directives.
- **`Ops`** (ops.dfy): the binary operators, their type rule, and their IR and C spellings.
- **`ErrorCodes`** (errors.dfy): the error codes and `trusimd_strerror`.
- **`KernelSpec`** (kernelspec.dfy): the session as a value, with each entry point as a function from session to session. Lemmas state what each entry point does:
  - the type checks that fail before anything changes;
  - the fresh ids;
  - the C lines written;
  - the expressions recorded;
  - the session invariant `Wf`: dense variable table, every `type_pos` entry at a placeholder, argument and global-index ids in range.
- **`Builder`** (builder.dfy): `struct trusimd_kernel` as a class whose fields the methods update in place. Every method is proved to follow the `KernelSpec` function of the same entry point.
- **`FrontSpec`** (frontspec.dfy): the `var` operators, `arg(i)`, `TRUSIMD_THROW_IF_ERROR_INT`, the `finished` flag and `operator<<`, as functions over the current session and `trusimd_errno`. This includes the `vector_add` statement of the simple kernel test.
- **`Frontend`** (frontend.dfy): the thread-local `current_kernel` and `trusimd_errno` as one `Context` object, and the `kernel` class as `KernelObject`. Their methods are proved to follow `FrontSpec`.

The order in which C++ evaluates the two operands of `trusimd_add(k, a(), b())` is unspecified. Each operand may issue a load, so the model takes that order as a parameter (`leftFirst`).

## Model

| member | source | states |
|---|---|---|
| TypeDesc.Equal | trusimd.cpp:42-49 | `operator==` holds exactly when the two descriptors are equal |
| TypeDesc.EqualIffFields | trusimd.cpp:42-45 | two descriptors are equal iff lane mode, kind, width and pointer depth all match |
| TypeDesc.RemovePointer | trusimd.cpp:61-65 | the result is not a pointer, has depth 0 and keeps lane mode, kind and width |
| TypeDesc.RemovePointerZeroes | trusimd.cpp:61-65 | removing twice equals removing once; depth 2 goes to 0, not 1; being an integer or a bool is kept |
| TypeDesc.BoolIsIntOfWidthOne | trusimd.cpp:51-57 | `is_bool` holds iff the kind is signed or unsigned and the width is 1; signed implies integer |
| TypeDesc.Vectorized | trusimd.cpp:739-742 | promotion sets the lane mode to vector and keeps kind, width and depth |
| TypeDesc.NoTypeIsNotAllocated | trusimd.h:44 | `trusimd_notype` differs from the int8 and int64 descriptors the builder allocates, and is not a pointer |
| Decimal.NatToString | trusimd.cpp:31-35 | a natural is written as one or more digits, two or more exactly when it is at least 10 |
| Decimal.IntToString | trusimd.cpp:31-35 | the text starts with a digit iff the number is not negative |
| Decimal.NatRoundTrip | trusimd.cpp:31-35 | reading back the digits written for n gives n |
| Decimal.IntRoundTrip | trusimd.cpp:31-35 | the text of an int is an optional minus and digits, and parses back to the int |
| Decimal.IntToStringInjective | trusimd.cpp:31-35 | different numbers are written differently |
| Decimal.IntToStringNoQuestion | trusimd.cpp:31-35 | a written number never contains `?`, so it cannot form a placeholder |
| Decimal.Find | trusimd.cpp:570 | `find` returns -1, or an offset where the pattern occurs |
| Decimal.FindFirst | trusimd.cpp:570 | when the pattern occurs at q, `find` returns an offset no later than q |
| TypeText.Repeat | trusimd.cpp:140-142 | the pointer loop writes exactly max(n, 0) characters, all `*`; with a space, the same holds of the indentation at lines 259-263 |
| TypeText.IrBase | trusimd.cpp:114-135 | the IR element spelling; no contract of its own, stated by `TypeText.PrintIrType` |
| TypeText.IrScaText | trusimd.cpp:137-143 | the scalar IR spelling; stated by `TypeText.PrintIrscaType` and `TypeText.IrScaTextPointerDepth` |
| TypeText.IrVecText | trusimd.cpp:145-161 | the vector IR spelling; stated by `TypeText.IrVecTextMarker` |
| TypeText.CText | trusimd.cpp:166-207 | the C spelling; stated by `TypeText.PrintCType`, `TypeText.CTextPointerDepth` and `TypeText.CTextWidthOneIsBool` |
| TypeText.PrintIrType | trusimd.cpp:114-135 | the buffer gains the IR base spelling: `i<w>`, half/float/double, bfloat, or nothing |
| TypeText.AppendRepeat | trusimd.cpp:140-142 | the loop appends exactly max(n, 0) copies of its character: the stars of the depth here, the indentation in print's `|` case |
| TypeText.PrintIrscaType | trusimd.cpp:137-143 | the buffer gains the base spelling followed by one `*` per pointer level |
| TypeText.PrintCKindWord | trusimd.cpp:171-190 | the buffer gains the kind word (signed, unsigned, half/float/double, bfloat16) |
| TypeText.PrintCType | trusimd.cpp:166-207 | the buffer gains the C spelling: `bool` at width 1, else kind word and width word, then the stars |
| TypeText.CTextPointerDepth | trusimd.cpp:204-206 | a C type spelling ends in exactly as many `*` as the pointer depth |
| TypeText.IrScaTextPointerDepth | trusimd.cpp:140-142 | a scalar IR spelling ends in exactly as many `*` as the pointer depth |
| TypeText.IrVecTextMarker | trusimd.cpp:145-161 | a vector-mode type's vector IR spelling holds the placeholder one character after its start; a scalar one is spelled as in the scalar IR |
| TypeText.CTextWidthOneIsBool | trusimd.cpp:168-169 | any width-1 descriptor is `bool` in C, whatever its kind, followed by its stars |
| Emitter.Step | trusimd.cpp:251-306 | one pass of the loop reads at least one and at most all remaining format characters |
| Emitter.Emit | trusimd.cpp:251-306 | the text and offsets the whole `print` loop writes; stated by `Emitter.EmitEnd`, `EmitCopy`, `EmitEscaped`, `EmitIndent`, `EmitDirective`, `EmitMarks` and `EmitMarkCount` |
| Emitter.ArgEmit | trusimd.cpp:265-284 | what S, D and V write for their argument; stated by `Emitter.EmitDirective` |
| Emitter.TypeEmit | trusimd.cpp:285-302 | what T writes in each dialect, with the vector IR's placeholder offset; stated by `Emitter.EmitDirective` and `Emitter.EmitMarks` |
| Emitter.EmitEnd | trusimd.cpp:251 | an empty format writes nothing and records nothing |
| Emitter.EmitCopy | trusimd.cpp:303-305 | an ordinary character is copied and the rest of the format follows |
| Emitter.EmitEscaped | trusimd.cpp:253-258 | `\x` writes x literally and consumes no argument |
| Emitter.EmitIndent | trusimd.cpp:259-264 | `|` writes exactly the dialect's indentation in spaces |
| Emitter.EmitDirective | trusimd.cpp:265-302 | S, D, V and T each write their argument's rendering and consume exactly one argument |
| Emitter.EmitMarks | trusimd.cpp:285-290 | every offset a format records starts a placeholder in what it wrote, and only the vector IR records offsets |
| Emitter.EmitMarkCount | trusimd.cpp:151 | when the arguments fit the format, the vector IR records one offset per vector-mode type argument |
| Emitter.EmitEscape | trusimd.cpp:253-258 | an escaped literal run writes exactly that run, whatever characters it holds |
| Emitter.DirectivesEscape | trusimd.cpp:253-258 | an escaped literal run holds no directive, so it consumes no argument |
| Emitter.EmitSpell | trusimd.cpp:251-306 | reading a spelled template token by token gives what `print` writes character by character |
| Emitter.SpellText | trusimd.cpp:251-306 | the text a spelled template writes does not depend on the buffer's length |
| Emitter.FindInOld | trusimd.cpp:570 | when the buffer already holds a placeholder, `find` stops at or before it, whatever is appended |
| Templates.LoadFits | trusimd.cpp:761 | the load format's directives match the arguments it is given |
| Templates.StoreFits | trusimd.cpp:811 | the IR store format's directives match its arguments |
| Templates.GepFits | trusimd.cpp:753-754 | the getelementptr format's directives match its arguments |
| Templates.BinOpFits | trusimd.cpp:460-461 | the binop format's directives match its arguments |
| Templates.ParamFits | trusimd.cpp:534 | the parameter format's directives match its arguments |
| Templates.IrScaParamFits | trusimd.cpp:535-539 | the scalar IR argument-unpacking format's nine directives match its nine arguments |
| Templates.CuPrologueAsWrittenMisfits | trusimd.cpp:571-578 | the CUDA prologue as written reads the directives V, D, V but is given two variable numbers |
| Templates.CuPrologueAsWrittenText | trusimd.cpp:571-578 | what the as-written CUDA prologue then writes: the index's number inside `blockDim` |
| Templates.CuPrologueText | trusimd.cpp:571-578 | the corrected CUDA prologue declares the index from `blockDim.x * blockIdx.x + threadIdx.x` and guards on it |
| Templates.ClPrologueText | trusimd.cpp:579-584 | the OpenCL prologue declares the index from `get_global_id(0)` and guards on it |
| Templates.CuPrologue | trusimd.cpp:571-578 | the corrected CUDA prologue template; its text is stated by `Templates.CuPrologueText` |
| Templates.CuPrologueAsWritten | trusimd.cpp:571-578 | the CUDA prologue as written, `blockDim`'s D a directive; stated by `Templates.CuPrologueAsWrittenMisfits` and `Templates.CuPrologueAsWrittenText` |
| Templates.IrVecPrologueAsWritten | trusimd.cpp:547-558 | the vector IR prologue as one format; `KernelSpec.CreateAsWrittenSameText` states it writes the corrected text |
| Templates.BlockDimLost | trusimd.cpp:574 | the as-written and corrected CUDA texts agree up to `block`, then differ: `D` against a digit or minus |
| Ops.TypeRule | trusimd.cpp:359-384 | arithmetic needs equal types, the bitwise group equal integer types, shifts two integer types |
| Ops.OnlyShiftsMixTypes | trusimd.cpp:377-383 | operands of different types pass the check only for a shift of two integers |
| Ops.FloatInstructions | trusimd.cpp:389-421 | the IR op starts with `f` iff the op is arithmetic and the left operand is not an integer |
| Ops.SignedDivision | trusimd.cpp:414-425 | integer division is `sdiv` iff the left operand is signed, and the remainder is `srem` iff it is |
| Ops.LogicalOnBool | trusimd.cpp:430-441 | And/Or are spelled `&&`/`||` in C iff the left operand is bool; AndNot is spelled like And in C but not in IR |
| Ops.TypeOk | trusimd.cpp:359-384 | the operand type check; stated by `Ops.TypeRule` and `Ops.OnlyShiftsMixTypes` |
| Ops.IrOp | trusimd.cpp:386-454 | the LLVM instruction; stated by `Ops.FloatInstructions` and `Ops.SignedDivision` |
| Ops.COp | trusimd.cpp:386-454 | the C infix operator; stated by `Ops.LogicalOnBool` |
| ErrorCodes.StrError | trusimd.cpp:643-662 | the three backend codes give the backend's message, and any unlisted code gives "Unknown error code" |
| ErrorCodes.StrErrorFixedRoundTrip | trusimd.cpp:645-652 | the four fixed messages identify their codes |
| ErrorCodes.StrErrorNoMemIsUnknown | trusimd.cpp:659-660 | ENOMEM has no message of its own and reads as "Unknown error code" |
| KernelSpec.Print | trusimd.cpp:222-318 | print only appends to the chosen buffer; other buffers and every other field are unchanged; only the vector IR adds to `type_pos` |
| KernelSpec.PrintAppends | trusimd.cpp:222-318 | the chosen buffer gains exactly what the format writes, and `type_pos` gains exactly its offsets |
| KernelSpec.PrintKeepsMarks | trusimd.cpp:151 | after any print, every `type_pos` entry still starts a placeholder in the vector IR |
| KernelSpec.Resize | trusimd.cpp:106 | `resize` keeps the entries below the new size and pads with zeroed descriptors |
| KernelSpec.Pick | trusimd.cpp:104-109 | the new id is the old `next_var + 1`, the table has length id+1 with the type at id, and earlier entries are kept |
| KernelSpec.Touch | trusimd.cpp:464 | reading `expr[x]` inserts an empty entry for x when missing and changes no other entry |
| KernelSpec.ExprAtTouch | trusimd.cpp:768 | reading an expression changes no expression |
| KernelSpec.NeedSpec | trusimd.cpp:323-334 | a non-user id is used as is; a user id gets a fresh id of its type by one reload in each IR |
| KernelSpec.NeedCount | trusimd.cpp:323-334 | `need_ir_var` allocates one id for a user variable and none otherwise |
| KernelSpec.Need | trusimd.cpp:323-334 | `need_ir_var` keeps the table dense and never shrinks it; the rest is `KernelSpec.NeedSpec` |
| KernelSpec.BinOpIrSpec | trusimd.cpp:457-461 | the result is the last id, of the left operand's type, after one reload per user operand |
| KernelSpec.BinOpRejects | trusimd.cpp:359-384 | the binop fails with ETYPE iff the type rule fails, and then the session is unchanged |
| KernelSpec.BinOpSpec | trusimd.cpp:386-466 | on success: a fresh id of the left type, expression `(l op r)`, C texts and user set unchanged, invariant kept |
| KernelSpec.BinOp | trusimd.cpp:354-467 | `trusimd_binop`; stated by `KernelSpec.BinOpRejects`, `BinOpIrSpec` and `BinOpSpec` |
| KernelSpec.NewVarSpec | trusimd.cpp:674-698 | `trusimd_var` returns the next id, marks it a user variable, names it `v<n>` and declares it in both C texts |
| KernelSpec.DeclLines | trusimd.cpp:685-686 | the declaration line is the indentation, the C type, a space, `v<n>` and `;` |
| KernelSpec.NewVar | trusimd.cpp:674-698 | `trusimd_var`; stated by `KernelSpec.NewVarSpec` and `DeclLines` |
| KernelSpec.AssignRejects | trusimd.cpp:708-712 | assignment fails with ETYPE iff the two types differ, and then the session is unchanged |
| KernelSpec.AssignSpec | trusimd.cpp:713-720 | assignment returns 0, keeps the table and writes `v<l> = <expr of r>;` to both C texts |
| KernelSpec.AssignLines | trusimd.cpp:717-718 | the assignment line is the indentation, `v<l>`, ` = `, the expression and `;` |
| KernelSpec.Assign | trusimd.cpp:703-727 | `trusimd_assign`; stated by `KernelSpec.AssignRejects`, `AssignSpec` and `AssignLines` |
| KernelSpec.LoadRejects | trusimd.cpp:743-747 | a load fails with ETYPE iff the offset is not an integer, whatever the pointer's type, and then the session is unchanged |
| KernelSpec.LoadIrSpec | trusimd.cpp:750-765 | the loaded id is the last one, of the element type, promoted to vector iff the offset is the global index |
| KernelSpec.LoadSpec | trusimd.cpp:749-770 | on success: a fresh id of the promoted element type with expression `p[off]`, C texts unchanged, invariant kept |
| KernelSpec.Load | trusimd.cpp:732-777 | `trusimd_load`; stated by `KernelSpec.LoadRejects`, `LoadIrSpec` and `LoadSpec` |
| KernelSpec.StoreRejects | trusimd.cpp:793-797 | a store fails with ETYPE iff the offset is not an integer or the value's type is neither the element nor the promoted type |
| KernelSpec.StoreIrSpec | trusimd.cpp:799-815 | the IR half of a store only appends to the IR texts and table, keeping the invariant |
| KernelSpec.StoreSpec | trusimd.cpp:799-823 | on success: result 0 and the line `p[off] = v;` in both C texts; invariant kept |
| KernelSpec.StoreLines | trusimd.cpp:818-821 | the store line is the indentation, `p`, `[`, `off`, `] = `, `v` and `;` and a blank line |
| KernelSpec.Store | trusimd.cpp:782-830 | `trusimd_store`; stated by `KernelSpec.StoreRejects`, `StoreIrSpec`, `StoreSpec` and `StoreLines` |
| KernelSpec.ParamCount | trusimd.cpp:521-525 | the argument loop stops at the first descriptor equal to `trusimd_notype` |
| KernelSpec.ParamIds | trusimd.cpp:526-533 | each argument takes three ids: an int8, then two of its type |
| KernelSpec.ParamShape | trusimd.cpp:521-545 | one pass records the argument, its id `n+2` and its expression `v<n+2>`, and keeps the indentations |
| KernelSpec.ParamsLaidOut | trusimd.cpp:521-545 | after the loop, argument j has id 3j+2 of its own type and expression `v<3j+2>` |
| KernelSpec.HeaderLaidOut | trusimd.cpp:510-520 | the headers leave no variables, no user variables and an IR indentation of 2 |
| KernelSpec.OpenedSpec | trusimd.cpp:505-546 | with m arguments the global index id is 3m, of type int64, named `v<3m>` |
| KernelSpec.ParamMarks | trusimd.cpp:534 | a vector-mode argument type adds an offset to `type_pos` |
| KernelSpec.VecPrologueSpec | trusimd.cpp:547-570 | corrected (see "## Findings"): the vector IR prologue writes the loop entry and records the offset of the `%ipn` placeholder, which starts a placeholder |
| KernelSpec.LoopHeadersSca | trusimd.cpp:559-568 | the scalar IR gains the loop header over the global index |
| KernelSpec.LoopHeadersC | trusimd.cpp:571-584 | corrected (see "## Findings"), `blockDim` literal: CUDA and OpenCL gain their index declaration and bound guard |
| KernelSpec.LoopHeadersFrame | trusimd.cpp:585-586 | the prologues change only the texts and `type_pos`, and set both indentations to 2 |
| KernelSpec.ProloguesSpec | trusimd.cpp:547-586 | corrected (see "## Findings"): all four prologues, the `%ipn` offset as the last `type_pos` entry, and the invariant kept |
| KernelSpec.CreateSpec | trusimd.cpp:505-594 | m arguments give 3m+1 ids; argument j has id 3j+2; the global index is 3m of type int64; indentations 2; invariant holds |
| KernelSpec.CreateExprs | trusimd.cpp:531-545 | every argument id and the global index id have expression `v<id>` |
| KernelSpec.CreateHeaders | trusimd.cpp:547-586 | the created texts end in the prologues, and the last `type_pos` entry is the `%ipn` placeholder |
| KernelSpec.Create | trusimd.cpp:505-594 | corrected (see "## Findings"): `trusimd_create_kernel_ap` with `blockDim` literal and the `%ipn` offset recorded; stated by `KernelSpec.CreateSpec`, `CreateExprs` and `CreateHeaders` |
| KernelSpec.LoopHeadersAsWrittenVec | trusimd.cpp:547-570 | as written, the recorded offset is the first placeholder in the whole vector IR |
| KernelSpec.LoopHeadersAsWrittenText | trusimd.cpp:559-584 | as written, the scalar IR and OpenCL texts are those of the corrected version; CUDA has the number in `blockDim` |
| KernelSpec.LoopHeadersAsWrittenStaleMark | trusimd.cpp:570 | when `type_pos` is not empty, the offset recorded as written is at or before its first entry, inside the old text |
| KernelSpec.CreateAsWrittenSameText | trusimd.cpp:505-594 | the as-written vector IR text is the same as the corrected one |
| KernelSpec.CreateAsWrittenStaleMark | trusimd.cpp:570 | with a vector-mode first argument, the offset recorded as written lies in the text written before the prologue |
| KernelSpec.LoopHeadersAsWritten | trusimd.cpp:547-586 | the prologues as written; stated by `KernelSpec.LoopHeadersAsWrittenVec`, `LoopHeadersAsWrittenText` and `LoopHeadersAsWrittenStaleMark` |
| KernelSpec.CreateAsWritten | trusimd.cpp:505-594 | `trusimd_create_kernel_ap` as written; stated by `KernelSpec.CreateAsWrittenSameText` and `CreateAsWrittenStaleMark` |
| KernelSpec.EpiloguesFrame | trusimd.cpp:605-606 | closing sets both indentations to 0 and changes only the texts otherwise |
| KernelSpec.EndSpec | trusimd.cpp:604-623 | with no guard, each dialect gains its closing text and `type_pos` is unchanged; the invariant is kept |
| KernelSpec.EndTwice | trusimd.cpp:604-623 | ending twice writes every closing text twice, e.g. two `}` lines in CUDA |
| KernelSpec.End | trusimd.cpp:604-623 | `trusimd_end_kernel`; stated by `KernelSpec.EpiloguesFrame`, `EndSpec` and `EndTwice` |
| Builder.Kernel.PrintIrvecType | trusimd.cpp:145-161 | the buffer gains the vector IR spelling, and `type_pos` gains the placeholder offset of a vector-mode type |
| Builder.Kernel.PrintDirective | trusimd.cpp:265-302 | one directive appends its argument's rendering and its offsets |
| Builder.Kernel.PrintStep | trusimd.cpp:252-306 | one loop pass appends what one template step writes and advances by its width |
| Builder.Kernel.Print | trusimd.cpp:222-318 | the loop leaves the session the `print` function gives |
| Builder.Kernel.PrintLoop | trusimd.cpp:251-306 | the loop appends to the buffer exactly the text the format writes and adds to `type_pos` exactly its offsets, none outside the vector IR |
| Builder.Kernel.PickNextVar | trusimd.cpp:104-109 | the id and session are those of `pick_next_var` |
| Builder.Kernel.NeedIrVar | trusimd.cpp:323-334 | follows `need_ir_var` |
| Builder.Kernel.BinOpIr | trusimd.cpp:457-461 | follows the IR half of `trusimd_binop` |
| Builder.Kernel.BinOpExpr | trusimd.cpp:464 | the map gains `(l op r)` at the new id, after default-inserting l and r |
| Builder.Kernel.BinOp | trusimd.cpp:354-467 | follows `trusimd_binop`, failing with ETYPE before any change |
| Builder.Kernel.Add | trusimd.cpp:667-669 | `trusimd_add` is the binop Add |
| Builder.Kernel.Var | trusimd.cpp:674-698 | follows `trusimd_var` |
| Builder.Kernel.Assign | trusimd.cpp:703-727 | follows `trusimd_assign` |
| Builder.Kernel.VecAddress | trusimd.cpp:753-759 | the address through the cast when promotion changed the type |
| Builder.Kernel.ScaAccess | trusimd.cpp:763-765 | the scalar IR's getelementptr and access |
| Builder.Kernel.LoadOperands | trusimd.cpp:750-752 | the pointer reloaded, the address id picked, the offset reloaded, in that order |
| Builder.Kernel.StoreOperands | trusimd.cpp:800-802 | the address id picked, then the pointer and offset reloaded, in that order |
| Builder.Kernel.LoadIr | trusimd.cpp:750-765 | follows the IR half of `trusimd_load` |
| Builder.Kernel.LoadExpr | trusimd.cpp:768 | the map gains `p[off]` at the loaded id |
| Builder.Kernel.Load | trusimd.cpp:732-777 | follows `trusimd_load` |
| Builder.Kernel.StoreIr | trusimd.cpp:799-815 | follows the IR half of `trusimd_store` |
| Builder.Kernel.Store | trusimd.cpp:782-830 | follows `trusimd_store` |
| Builder.Kernel.Create | trusimd.cpp:505-594 | corrected (see "## Findings"): a new session in the state `trusimd_create_kernel_ap` builds, with `blockDim` literal and the `%ipn` offset recorded |
| Builder.Kernel.OpenHeaders | trusimd.cpp:510-520 | from the empty session, the four headers |
| Builder.Kernel.ParamIds | trusimd.cpp:526-533 | the three ids of one argument are the next three |
| Builder.Kernel.ParamPrints | trusimd.cpp:534-541 | the four texts of one argument |
| Builder.Kernel.AddParam | trusimd.cpp:522-541 | one pass of the argument loop |
| Builder.Kernel.AddParams | trusimd.cpp:521-542 | the argument loop up to the first notype |
| Builder.Kernel.OpenParams | trusimd.cpp:521-546 | the arguments, then the global index variable |
| Builder.Kernel.LoopHeaders | trusimd.cpp:547-586 | corrected (see "## Findings"): the four prologues and the indentations |
| Builder.Kernel.CreateAsWritten | trusimd.cpp:505-594 | a new session in exactly the state `trusimd_create_kernel_ap` builds as written, i.e. `KernelSpec.CreateAsWritten` |
| Builder.Kernel.LoopHeadersAsWritten | trusimd.cpp:547-586 | the prologues as written: the offset of the first placeholder in the vector IR is recorded, and the CUDA guard is printed with `blockDim`'s D read as a directive |
| Builder.Kernel.End | trusimd.cpp:604-623 | follows `trusimd_end_kernel` |
| Builder.Kernel.NbKernelArgs | trusimd.cpp:627 | the number of arguments |
| Builder.Kernel.GetKernelArg | trusimd.cpp:629-631 | the id of argument i |
| Builder.Kernel.GetGlobalId | trusimd.cpp:835 | the global index id |
| Builder.Kernel.GetTexts | trusimd.cpp:636-638 | the CUDA, OpenCL and vector IR texts as they stand |
| FrontSpec.ThrowIfErrorInt | trusimd.hpp:53-58 | a throw iff the value is -1; otherwise the value passes unchanged |
| FrontSpec.CallOutcome | trusimd.hpp:53-58 | a success other than -1 passes with `trusimd_errno` untouched; a failure throws exactly the code stored |
| FrontSpec.CallAmbiguousAtMinusOne | trusimd.hpp:53-58 | a successful -1 would be thrown with a stale `trusimd_errno` |
| FrontSpec.Call | trusimd.hpp:53-58 | an entry point call under TRUSIMD_THROW_IF_ERROR_INT; stated by `FrontSpec.CallOutcome` and `CallAmbiguousAtMinusOne` |
| FrontSpec.MakeVar | trusimd.hpp:112-114 | `var(t)` gives a valid unindexed variable and keeps the session invariant |
| FrontSpec.Eval | trusimd.hpp:121-129 | evaluating a handle keeps the invariant, grows the table and gives an id in range |
| FrontSpec.Assign | trusimd.hpp:135-144 | `operator=` keeps the invariant and gives back the target |
| FrontSpec.Plus | trusimd.hpp:146-151 | `operator+` keeps the invariant, grows the table and gives a valid unindexed variable; what it computes is `FrontSpec.PlusDispatch` |
| FrontSpec.AddValues | trusimd.hpp:148-149 | the `trusimd_add` call under the wrapper keeps the invariant and gives a valid unindexed variable; its outcome is `FrontSpec.AddValuesDispatch` |
| FrontSpec.Index | trusimd.hpp:153-158 | `operator[](var)` keeps the invariant, grows the table and gives a valid handle |
| FrontSpec.IndexGid | trusimd.hpp:160-166 | `operator[](gid)` gives a valid handle |
| FrontSpec.Arg | trusimd.hpp:319-324 | `arg(i)` gives a valid variable when it succeeds |
| FrontSpec.ArgBounds | trusimd.hpp:319-324 | `arg(i)` throws EINDEX iff i < 0 or i >= the number of arguments, and otherwise is argument i's unindexed id |
| FrontSpec.EvalDispatch | trusimd.hpp:121-129 | an unindexed handle evaluates to its id with no change; an indexed one issues exactly one load and throws ETYPE when it fails |
| FrontSpec.AssignDispatch | trusimd.hpp:135-144 | the right side is evaluated first and its throw is passed on; then an unindexed target is the wrapped `trusimd_assign` and an indexed one the wrapped `trusimd_store`, giving back the target unless that call throws |
| FrontSpec.IndexGidPromotes | trusimd.hpp:160-166 | the index recorded is the global index, so the element type seen is vector-promoted |
| FrontSpec.PlusDispatch | trusimd.hpp:146-151 | `operator+` evaluates the operands in the order chosen, passes on the first throw, and otherwise is the `trusimd_add` of the left value and the right value; two unindexed operands are added with no evaluation effect |
| FrontSpec.AddValuesDispatch | trusimd.hpp:148-149 | the `trusimd_add` under the wrapper throws the int ETYPE, with session and `trusimd_errno` unchanged, iff the types fail the binop rule; otherwise it gives the unindexed id `trusimd_binop` returns, `trusimd_errno` unchanged |
| FrontSpec.IndexDispatch | trusimd.hpp:153-158 | `operator[](var)` records the handle's value as id and the index's value as index; a throw is the first evaluation's, and then the index is not evaluated; two unindexed handles change nothing |
| FrontSpec.AssignIndexed | trusimd.hpp:140-141 | assigning a value to an indexed target is the wrapped store |
| FrontSpec.LoadKeeps | trusimd.cpp:732-777 | a load keeps the invariant, grows the table and returns an id in range |
| FrontSpec.StoreKeeps | trusimd.cpp:782-830 | a store keeps the invariant and returns 0 when it succeeds |
| FrontSpec.AssignKeeps | trusimd.cpp:703-727 | an assignment keeps the invariant and returns 0 when it succeeds |
| FrontSpec.BinOpKeeps | trusimd.cpp:354-467 | a binop keeps the invariant and returns an id in range |
| FrontSpec.LoadElement | trusimd.cpp:737-768 | loading `p[gid]` succeeds with a fresh id of the promoted type and the expression `p[gid]` |
| FrontSpec.EvalElement | trusimd.hpp:121-129 | evaluating `p[gid]` is that load, with `trusimd_errno` unchanged |
| FrontSpec.AddLoaded | trusimd.cpp:354-466 | adding two loaded values of one type gives a fresh id with expression `(a + b)` |
| FrontSpec.PlusElements | trusimd.hpp:146-151 | `p[gid] + q[gid]` succeeds in either evaluation order with expression `(p[gid] + q[gid])` |
| FrontSpec.AssignElement | trusimd.hpp:135-144 | `p[gid] = v` of the promoted type succeeds and writes `p[gid] = v;` to both C texts |
| FrontSpec.ArgAtGid | trusimd.hpp:160-166 | `arg(i)[gid]` is argument i's id indexed by the global index, with no change |
| FrontSpec.ElementSumStatement | trusimd.hpp:135-166 | `p0[gid] = p1[gid] + p2[gid]` writes exactly one line to each C text, in either evaluation order |
| FrontSpec.VectorAddSession | tests/simple_kernel.cpp:30 | opening `vector_add` on three float pointers gives argument ids 2, 5, 8 and global index 9 |
| FrontSpec.VectorAddReady | tests/simple_kernel.cpp:30-32 | in that session all three arguments can be loaded at the global index, have one element type, and the statement's C text is exactly the line `  v2[v9] = (v5[v9] + v8[v9]);` followed by a blank line |
| FrontSpec.VectorAddStatement | tests/simple_kernel.cpp:32 | the statement gains exactly the line `  v2[v9] = (v5[v9] + v8[v9]);` followed by a blank line in CUDA and OpenCL, and nothing is thrown |
| FrontSpec.Finish | trusimd.hpp:302-305 | after finishing, the flag is set and the session invariant holds |
| FrontSpec.FinishOnce | trusimd.hpp:281-291 | finishing twice is finishing once; a first finish closes the CUDA text once |
| FrontSpec.ShownCuda | trusimd.hpp:306-308 | `operator<<` writes the CUDA text whole, right after its title |
| FrontSpec.Shown | trusimd.hpp:301-314 | the text `operator<<` writes; stated by `FrontSpec.ShownCuda` |
| Frontend.Context.constructor | trusimd.hpp:70 | no current session and no error |
| Frontend.Context.Replace | trusimd.hpp:237-247 | a current session is ended; a new session opened on the arguments becomes current |
| Frontend.Context.Wrap | trusimd.hpp:53-58 | `trusimd_errno` as the entry point left it, and a throw of it iff the value returned is -1 |
| Frontend.Context.MakeVar | trusimd.hpp:112-114 | follows `FrontSpec.MakeVar` on the current session |
| Frontend.Context.Eval | trusimd.hpp:121-129 | follows `FrontSpec.Eval` |
| Frontend.Context.Assign | trusimd.hpp:135-144 | follows `FrontSpec.Assign` |
| Frontend.Context.Plus | trusimd.hpp:146-151 | follows `FrontSpec.Plus` |
| Frontend.Context.Index | trusimd.hpp:153-158 | follows `FrontSpec.Index` |
| Frontend.Context.IndexGid | trusimd.hpp:160-166 | follows `FrontSpec.IndexGid` |
| Frontend.Context.Arg | trusimd.hpp:319-324 | follows `FrontSpec.Arg` |
| Frontend.KernelObject.Of | trusimd.hpp:245-246 | a new object owns the session, not finished |
| Frontend.KernelObject.Open | trusimd.hpp:235-247 | the old current session is ended; the new object owns a fresh current session on the arguments plus notype, and is not finished |
| Frontend.KernelObject.OpenReplacing | trusimd.hpp:235-247 | as Open, and the object that owned the ended session is marked finished |
| Frontend.KernelObject.EndOnce | trusimd.hpp:281-284 | follows `FrontSpec.Finish`: the session is ended only when the flag was clear |
| Frontend.KernelObject.Show | trusimd.hpp:301-314 | the object is finished and the text is the three ended texts under their titles |
| Frontend.KernelObject.Destroy | trusimd.hpp:293-296 | no session is current afterwards |
| Frontend.OpenThenShow | trusimd.hpp:236-240 | as written, showing an object after another kernel was opened ends its session twice |
| Frontend.OpenReplacingThenShow | trusimd.hpp:236-240 | with the corrected constructor the same sequence ends the session once |

## Left out

- Backends: NVRTC/CUDA, OpenCL and the LLVM JIT, device memory, `trusimd_poll`, `trusimd_find_first_hardware` and `trusimd_compile_run*` are foreign calls and I/O. The kernel's `operator()` is modelled only up to ending its session (`EndOnce`).
- The backend error strings of `trusimd_strerror` come from foreign code. They are the `BackendMessages` parameter.
- Allocation failure: every `catch` path that sets ENOMEM, and the NULL check after `trusimd_create_kernel`. Allocation is taken to succeed.
- The `THROW` of `print` on an exception is left out for the same reason.
- Lane-width patching of the `type_pos` offsets: no code in the core rewrites them; only the recording is modelled.
- `buffer_pair`, `find_hardware` and `detail::tolower` belong to hardware handling and are not part of this model.
- `std::ostream` output: `operator<<` is modelled as the string it writes.
- Thread-local storage: `current_kernel` and `trusimd_errno` are fields of one `Context` object.
- The pre-C++11 `va_list` constructor (trusimd.hpp:249-262) does what the C++11 one does on a caller-terminated list. It is not modelled separately.
- C strings: a string argument with an embedded NUL would be cut short by `print`. Strings here are whole character sequences.
- Integer width: ids, `8 * arg_i` and `next_var` are unbounded integers; 32-bit overflow is not modelled.
- Emitter.Step: a directive with no argument left writes nothing. In the source, `V` first writes its prefix (`%v` or `v`, trusimd.cpp:275-279) and then reads `va_arg` past the last argument, which is undefined behaviour. The model drops that prefix too. The CUDA prologue as written is the one call that reaches this case: its guard starts `if (v` followed by an unknown number in the source, and `if ( >= size)` in `Templates.CudaPrologueAsWrittenText`.
- Builder.Kernel.Create, Builder.Kernel.LoopHeaders, KernelSpec.Create: build the corrected prologues of "## Findings" (`blockDim` escaped, the `%ipn` offset recorded where it is written). The session as the source writes it is `KernelSpec.CreateAsWritten`, built by `Builder.Kernel.CreateAsWritten`.
- KernelSpec.VecPrologueSpec, KernelSpec.LoopHeadersC, KernelSpec.ProloguesSpec: state the corrected prologues. The as-written ones are stated by `KernelSpec.LoopHeadersAsWrittenVec` and `KernelSpec.LoopHeadersAsWrittenText`.
- Frontend.Context.Replace, Frontend.KernelObject.Open, Frontend.KernelObject.OpenReplacing and FrontSpec.VectorAddSession open the corrected session, not the as-written one.
- Builder.Kernel.GetKernelArg: requires an index in range. The source indexes `args_vars` unchecked, which is undefined behaviour out of range.
- Builder.Kernel.Load, Builder.Kernel.Store, Builder.Kernel.Assign and Builder.Kernel.BinOp require ids that name variables. The source indexes `vars` unchecked.
- Frontend.Context.MakeVar and the other `Context` operators require a current, well-formed session and handles whose ids name variables. The source dereferences `current_kernel` unchecked.
- Frontend.KernelObject.Destroy: does not model the freeing done by `trusimd_clear_kernel`.
  - A destroyed object's session is no longer reachable from the context.
  - Destroying an object that is not current also clears the current session; the model does the same.
- Frontend.Context.Replace: does not model the NULL check (`TRUSIMD_THROW_IF_ERROR_PVOID`), since creation is taken to succeed.
- The scenario for `vector_add` is split in two:
  - `FrontSpec.VectorAddSession` covers opening the session;
  - `FrontSpec.VectorAddStatement` covers the statement, on any session opened that way.

## Findings

| source | as written | input that shows it | evidently intended | confidence | as-written member | corrected member |
|---|---|---|---|---|---|---|
| trusimd.cpp:574 | the CUDA prologue's format contains `blockDim`, whose `D` `print` reads as a directive: three directives for two arguments | any kernel, e.g. one float pointer argument (global index 3): the CUDA text reads `(int)(block3im.x * ...` and the guard's `V` has no argument left | `blockDim` written literally (escaped as `block\Dim`) | high, not executed | Templates.BlockDimLost | Templates.CuPrologueText |
| trusimd.cpp:570 | `type_pos` records `llvm_ir_vec.find("??????????")`, the first placeholder in the buffer | a kernel whose first argument is vector-mode, e.g. `{TRUSIMD_VECTOR, TRUSIMD_FLOAT, 32, 1}`: the argument's offset is recorded twice and the `%ipn` placeholder never | the offset of the placeholder the prologue has just written | high, not executed | KernelSpec.CreateAsWrittenStaleMark | KernelSpec.CreateHeaders |
| trusimd.hpp:236-240 | the constructor ends the current session but sets `finished` on the object under construction, then clears it, so the object owning the ended session is not told | `kernel a("a", float32ptr); kernel b("b", float32ptr); std::cout << a;` ends `a`'s session twice, and its CUDA text closes with two `}` lines | mark the owner of the ended session finished | medium, not executed | Frontend.OpenThenShow | Frontend.OpenReplacingThenShow |
