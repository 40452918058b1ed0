# stack-vm in Dafny

A model of the two halves of `stack-vm`: the bytecode virtual machine
(`vm.rb`) and the Scheme-to-bytecode compiler (`compiler.rb`).

**The machine.** It keeps one heap array that holds both code and values.
An address is an index into that array. A machine state has:

- an operand stack of addresses;
- a call stack of frames, each with a return address, locals and an argument queue;
- the argument list staged for the next `CALL` or `APPLY`;
- memoised addresses for `#t`, `#f` and `()`.

Each of the 35 instruction-table opcodes has a handler here:

| Module | Contents |
|---|---|
| `Bytecode` | the opcode table |
| `Heap` | cells, allocation of the lowest free cell, pair chains |
| `Machine` | one total function per handler, the fetch-decode-execute step, and a fuel-bounded execute loop |

Each handler returns a `Result`, and every way the source can raise becomes a `VmError`.

**The compiler.** It takes S-expressions (`SExps`) and emits flat token
sequences: opcodes, integer operands and text operands. It threads two
tables:

- the names `define` has made local;
- the macros `define-syntax` has recorded.

The `syntax-rules` rewrite is a pure tree transformation (`Macros`). The
compiler itself, with one function per special form, is in `Compiler`.

**What is proved.** The properties live in the `*Props` modules and in
`Linkage`, which joins compiler output to machine steps:

- every machine step keeps the singleton invariant;
- list building, argument staging and spreading are round trips;
- binding followed by lookup returns what was bound;
- `CALL` followed by `RETURN` restores the caller;
- `PUSH_FUNC` skips any well-nested body;
- compiling for effect is compiling for value plus at most one `POP`;
- quoting ignores the tables;
- `syntax-rules` picks the first rule whose length matches;
- an `if` lands on the right branch;
- a compiled program holds exactly one `HALT` when it asks for one, and none otherwise.

## Model

| member | source | states |
|---|---|---|
| Bytecode.FromIndex | vm.rb:17-57 | an integer names an opcode exactly when it lies in 0..34, and what it names is a row of the instruction table |
| Bytecode.IndexRoundTrip | vm.rb:55-57 | the constant of every table row reads back as that row: the opcode numbers are the table positions |
| Bytecode.FromIndexRoundTrip | vm.rb:55-57 | every number 0..34 is the position of the row it names |
| Bytecode.Arity | vm.rb:17-53 | operand counts are 0 or 1, and 1 for exactly the nine instructions that fetch an operand |
| Bytecode.Decode | vm.rb:82-84 | an opcode cell dispatches as itself; an integer cell dispatches exactly when it lies in 0..34, and then as the table row with that index; a text cell never dispatches |
| Bytecode.SkipBlanks | vm.rb:197 | `to_i` first drops the leading blanks (space, tab, newline, vertical tab, form feed, return); what remains is a suffix of the text that starts with no blank |
| Bytecode.TextToIntDecimal | vm.rb:196-198 | the operand conversion (`to_i`) reads the decimal rendering of a natural number back as that number |
| Bytecode.TextToIntBlanks | vm.rb:197 | blanks in front of operand text do not change what `to_i` reads |
| Bytecode.TextToIntNegative | vm.rb:197 | a minus sign before the decimal text of a natural number reads as its negation |
| Bytecode.UnderscoreBetweenDigits | vm.rb:197 | a single underscore between two digits is passed over, so `1_000` reads as `1000` |
| Heap.Alloc | vm.rb:337-339 | the allocated address is a free cell or one past the end |
| Heap.AllocLowest | vm.rb:337-339 | every cell below the allocated address is occupied: allocation takes the lowest free slot |
| Heap.AllocStore | vm.rb:266-270 | storing a value puts it at the allocated address, grows the heap by at most one and keeps every occupied cell |
| Heap.Resolve | vm.rb:257-260 | an address resolves exactly when it is in range and occupied, to the cell stored there |
| Heap.BuildChainIsList | vm.rb:134-142 | the pair chain built over a sequence of addresses is a proper list of exactly those addresses, in order |
| Heap.ReadListOfChain | vm.rb:207-211 | walking a proper list from its head yields its elements in order |
| Heap.ListLengthUnique | vm.rb:207-211 | a head spells at most one list length, so the walk's result is determined |
| Heap.ChainShorterThanHeap | vm.rb:207-211 | a proper list has fewer elements than the heap has cells, so a walk bounded by the heap size sees all of it |
| Machine.Init | vm.rb:64-72 | a fresh machine has one frame, with no return address and the given arguments, and an empty stack and staging list |
| Machine.Load | vm.rb:77-81 | loading appends the code after the heap and points the instruction pointer at its first cell; stack, frames, staged arguments and output are unchanged |
| Machine.TrueAddress | vm.rb:272-278 | `#t` is allocated once; afterwards its address is returned with the machine unchanged |
| Machine.FalseAddress | vm.rb:284-290 | `#f` is allocated once; afterwards its address is returned with the machine unchanged |
| Machine.EmptyListAddress | vm.rb:296-302 | `()` is allocated once; afterwards its address is returned with the machine unchanged |
| MachineProps.SingletonsMemoised | vm.rb:272-302 | asking for a singleton a second time gives the same address and the same machine |
| Machine.PopCell | vm.rb:308-312 | popping a value fails on an empty stack or a dangling address, and otherwise returns the cell and the shorter stack |
| Machine.PopRaw | vm.rb:314-319 | a raw pop succeeds exactly on an integer cell, returns its number and frees the cell |
| Machine.FindRemote | vm.rb:125-130 | finds the innermost frame that binds the name, and nothing exactly when no frame does |
| Machine.SkipRow | vm.rb:367 | the body walk looks a token up in the instruction table by the token itself: a non-negative token as Decode reads it, -35..-1 as the row that many places from the end, anything lower as no row |
| Machine.SkipBody | vm.rb:364-373 | a successful skip ends just after an ENDF, inside the heap |
| Machine.ExecPushLiteral | vm.rb:86-94 | PUSH_ATOM, PUSH_NUM and PUSH_STR store the value of their operand at the allocated address and push it; a missing or unconvertible operand fails |
| Machine.ExecPushBool | vm.rb:95-98 | PUSH_TRUE and PUSH_FALSE push the singleton's address, allocating it only the first time |
| Machine.ExecPairField | vm.rb:99-104 | PUSH_CAR and PUSH_CDR replace a pair's address by its first or second field, and fail on anything but a pair |
| Machine.ExecPushCons | vm.rb:105-109 | PUSH_CONS replaces the top two addresses by a new pair of them, the deeper one first |
| Machine.ExecPushList | vm.rb:110-119 | PUSH_LIST pops a count k and replaces the k addresses below it by one list of them in stack order |
| Machine.ExecPushLocal | vm.rb:120-124 | PUSH_LOCAL pushes the innermost frame's binding and fails with VariableUndefined when there is none |
| Machine.ExecPushRemote | vm.rb:125-130 | PUSH_REMOTE pushes the binding of the innermost frame that has one and fails with VariableUndefined when none has |
| Machine.ExecPushArg | vm.rb:131-133 | PUSH_ARG moves the head of the frame's argument queue onto the stack |
| Machine.ExecPushArgs | vm.rb:134-142 | PUSH_ARGS pushes one list of the whole queue in order, the empty list when the queue is empty, and drains the queue |
| Machine.PushArgsAsWritten | vm.rb:134-142 | as the source has it, PUSH_ARGS pushes no address at all exactly when the queue is empty |
| Machine.ExecPushFunc | vm.rb:143-145 | PUSH_FUNC pushes the body's address and resumes after the matching ENDF |
| Machine.ExecPop | vm.rb:146-147 | POP drops the top address and leaves an empty stack alone |
| Machine.ExecArith | vm.rb:148-155 | ADD and SUB replace two integer cells by their sum or difference, deeper operand first, and fail on anything else |
| Machine.ExecCompare | vm.rb:156-171 | the four ordering comparisons replace two integers by the singleton for the relation between them, deeper operand first |
| Machine.ExecCmpEq | vm.rb:172-175 | CMP_EQ replaces two values by `#t` exactly when the cells are equal |
| Machine.ExecCmpNull | vm.rb:176-178 | CMP_NULL replaces a value by `#t` exactly when it is the empty list |
| Machine.ExecDup | vm.rb:179-181 | DUP pushes the top address again |
| Machine.ExecInt | vm.rb:182-195 | INT 1 records the top address without popping it, INT 2 pops and records the cell (or nothing on an empty stack), and other codes only move on |
| Machine.ExecJump | vm.rb:196-198 | JUMP adds its operand to the address of the operand cell |
| Machine.ExecJumpIfFalse | vm.rb:199-202 | JUMP_IF_FALSE pops, and jumps exactly when the popped address is `#f`'s |
| Machine.ExecCall | vm.rb:203-206 | CALL enters a frame holding the staged arguments and returning to the next instruction, jumps to the popped address, and fails with CallStackTooDeep past 1000 frames |
| Machine.SpreadLast | vm.rb:207-211 | APPLY's staged list is replaced by its elements, in order, after the other staged arguments |
| Machine.ExecApply | vm.rb:207-215 | APPLY calls like CALL with the last staged argument spread into the queue |
| Machine.ExecReturn | vm.rb:216-217 | RETURN pops the innermost frame and resumes at its return address; the top-level frame has none |
| Machine.ExecSetLocal | vm.rb:218-220 | SET_LOCAL binds its operand in the innermost frame to the popped address and leaves the other frames alone |
| Machine.ExecSetArgs | vm.rb:221-223 | SET_ARGS pops a count k and stages the k addresses below it in stack order |
| Machine.Exec | vm.rb:82-227 | HALT stops the machine, every other table opcode keeps it running, and an opcode outside the table has no semantics |
| Machine.Step | vm.rb:251-255 | an empty or missing cell stops the loop, a code cell naming an opcode is executed with the pointer past it, and any other cell is passed over |
| MachineProps.ExecValid | vm.rb:82-227 | every handler keeps the singletons holding `#t`, `#f` and `()` and the top-level frame in place |
| MachineProps.StepValid | vm.rb:82-249 | every step keeps that invariant |
| MachineProps.RunValid | vm.rb:77-249 | every machine a run reaches, stopped or still going, keeps that invariant |
| MachineProps.RunStep | vm.rb:82-84 | a run of n steps is one step and then, unless it stopped, a run of n - 1 |
| MachineProps.PushListMakesList | vm.rb:110-119 | after PUSH_LIST the top address spells a proper list of the k popped addresses |
| MachineProps.PushListThenSpread | vm.rb:207-211 | spreading the list PUSH_LIST built gives back exactly the k addresses it consumed, in order |
| MachineProps.PushArgInOrder | vm.rb:131-133 | k PUSH_ARGs push the first k queued arguments in order and leave the rest queued |
| MachineProps.SetArgsCallPushArgs | vm.rb:221-223 | SET_ARGS, CALL and then one PUSH_ARG per argument deliver the staged arguments to the callee in their original order and empty its queue |
| MachineProps.PushArgsThenSpread | vm.rb:134-142 | spreading the list PUSH_ARGS built gives back the whole argument queue |
| MachineProps.PushArgsEmptyQueue | vm.rb:134-142 | with an empty queue the source's PUSH_ARGS pushes nothing, while the corrected one pushes the empty list |
| MachineProps.LocalAgreesWithRemote | compiler.rb:367-372 | when a name is bound in the innermost frame, PUSH_LOCAL and PUSH_REMOTE behave identically, so the compiler's choice between them is safe |
| MachineProps.SetLocalThenPushLocal | vm.rb:218-220 | a PUSH_LOCAL of the name just bound by SET_LOCAL pushes the bound address |
| MachineProps.SetLocalShadows | vm.rb:125-130 | after SET_LOCAL, PUSH_REMOTE of that name sees the new binding, shadowing any outer frame |
| MachineProps.CallThenReturn | vm.rb:216-217 | a RETURN in the frame a CALL entered resumes the caller at the instruction after CALL with its frames restored |
| MachineProps.CallDepthGuard | vm.rb:203-206 | CALL fails with CallStackTooDeep exactly from 1000 frames on, and succeeds below that with a target on the stack |
| MachineProps.SkipOver | vm.rb:364-373 | the body skip passes over any well-nested encoded code as a whole |
| MachineProps.FuncSkipLands | vm.rb:364-373 | skipping from just inside a function value lands just after its own ENDF, whatever it nests |
| MachineProps.PushFuncSkipsBody | vm.rb:143-145 | a step at PUSH_FUNC pushes the body's address and resumes after the whole function |
| MachineProps.PushLiteralStep | vm.rb:86-94 | a step at a literal push stores the literal, pushes its address and moves past the operand |
| MachineProps.JumpStep | vm.rb:196-198 | a step at JUMP n goes to the operand cell's address plus n |
| MachineProps.JumpIfFalseStep | vm.rb:199-202 | a step at JUMP_IF_FALSE n goes n past the operand cell when `#f` was on top, and to the next instruction otherwise |
| SExps.Strip | compiler.rb:93 | the stripped text is the slice of the input left after dropping a white-space prefix and a white-space suffix, and it neither starts nor ends with white space |
| Compiler.Classify | compiler.rb:94-124 | a literal is a variable exactly when it starts with a lower-case letter, a character or a string only in its quoted shapes, and nothing only when empty |
| CompilerProps.LiteralUse | compiler.rb:92-125 | a literal compiled for effect is the same code as for value plus one POP, except strings, empty text and quoted atoms |
| CompilerProps.NumberLiteral | compiler.rb:118-124 | a number compiles to PUSH_NUM of its text, which converts back to the number |
| CompilerProps.VariableLiteral | compiler.rb:95-103 | a name compiles to a variable push, local or remote by the locals table, unless quoted, when it is an atom |
| CompilerProps.StringLiteral | compiler.rb:114-115 | a string literal compiles to PUSH_STR of its body, never followed by POP |
| CompilerProps.CharLiteral | compiler.rb:108-113 | `#\space` and `#\newline` are the two named characters; any other character literal is its first character |
| CompilerProps.BooleanLiterals | compiler.rb:104-107 | `#t` and `#f` compile to PUSH_TRUE and PUSH_FALSE |
| CompilerProps.DigitText | compiler.rb:93-124 | any text that starts and ends with a digit falls through to the last case and compiles to PUSH_NUM of that text |
| CompilerProps.PushNumRuns | vm.rb:89-91 | PUSH_NUM of text that reads as `n`, loaded and stepped once, allocates a cell holding the integer `n` and pushes its address |
| CompilerProps.NumberLiteralRuns | compiler.rb:118-124 | the code of a number literal, loaded and stepped once, leaves that integer on the stack |
| CompilerProps.StringLiteralRuns | compiler.rb:114-115 | the code of a string literal, loaded and stepped once, leaves that string on the stack |
| Compiler.SliceAtDots | compiler.rb:229 | slicing a parameter list yields non-empty slices, none exactly for the empty list, the first starting with the first parameter |
| FormProps.SliceRejoins | compiler.rb:229 | the slices of a parameter list join back to the list |
| FormProps.SliceIsolatesDots | compiler.rb:229 | a slice containing the dot is the dot alone |
| FormProps.SliceDotted | compiler.rb:229 | `(a ... . r ...)` slices into the named part, the dot and the rest |
| Compiler.Names | compiler.rb:233 | the lambda's locals are exactly the parameter names |
| Compiler.FixedParams | compiler.rb:374-379 | each fixed parameter becomes PUSH_ARG, SET_LOCAL and its name, in order |
| Compiler.LambdaParams | compiler.rb:226-239 | a single name takes the whole queue as a list, and a dot-free list of names takes one argument each |
| FormProps.DottedParams | compiler.rb:228-231 | `(a b . r)` takes one argument per named parameter and the rest as a list bound to the first name after the dot |
| FormProps.DotAtAnEnd | compiler.rb:228-231 | a dot with nothing before it or after it is refused |
| Compiler.Compile | compiler.rb:53-89 | compiling never forgets a local or a macro, and quoted compilation always succeeds and changes neither table |
| CompilerProps.UseCompile | compiler.rb:388-390 | compiling for effect gives the code compiled for value, or that code plus one POP, with the same tables |
| CompilerProps.QuoteCompile | compiler.rb:201-207 | quoted code depends on neither the tables, the macros nor the expansion depth |
| CompilerProps.QuasiCompile | compiler.rb:209-215 | quasiquoted data without `unquote` compiles exactly as quoted data |
| FormProps.SpecialDispatch | compiler.rb:73-74 | a form headed by a special name is handled by the handler of its mangled name |
| FormProps.MangleArrow | compiler.rb:73 | `a->b` becomes `a_to_b` |
| FormProps.MangleDash | compiler.rb:73 | a dash after a lower-case letter becomes an underscore |
| FormProps.SurfaceNames | compiler.rb:73 | the hyphenated surface names reach `string_ref`, `string_length`, `list_to_string`, `define_syntax` and `syntax_rules` |
| FormProps.DefineStatement | compiler.rb:217-223 | `(define n v)` is the code of v, compiled with n already local, followed by SET_LOCAL n, and fails exactly when v does |
| Compiler.PushVar | compiler.rb:367-372 | a reference is two tokens, the name last, and reads with PUSH_LOCAL exactly when this body has defined the name, with PUSH_REMOTE otherwise |
| FormProps.DefineThenReference | compiler.rb:367-372 | a name referred to after its `define` is read with PUSH_LOCAL |
| FormProps.ConsNeedsTwo | compiler.rb:149-156 | `cons` with other than two arguments is refused, and with two is both arguments then PUSH_CONS |
| FormProps.ApplyStaging | compiler.rb:259-268 | `apply` is refused with fewer than two arguments, and otherwise compiles the arguments, stages their count with SET_ARGS and ends in APPLY |
| FormProps.CallStaging | compiler.rb:250-257 | a call compiles its arguments, stages their count only when there are any, and ends in CALL |
| FormProps.SpliceNeedsList | compiler.rb:59-67 | `unquote-splicing` of something that is not list-shaped is refused, and of a list yields its members as a splice |
| FormProps.UnquoteShape | compiler.rb:59-67 | under quasiquote every head containing `unquote` other than `unquote-splicing` yields the operand's own code |
| FormProps.MembersAppend | compiler.rb:270-278 | the members of a concatenation are the members of each part, the second compiled with the tables the first left |
| FormProps.SpliceCount | compiler.rb:270-285 | a quasiquoted list with a spliced `(list ...)` counts the spliced members one by one in its PUSH_NUM |
| FormProps.MacroUse | compiler.rb:75-85 | a macro use compiles its expansion for value, plus POP when for effect, and fails when the expansion fails |
| FormProps.DefineSyntaxRecords | compiler.rb:287-291 | `define-syntax` emits no code and records the rules' transformer under the name, or is refused when the rules are malformed |
| FormProps.BodySplit | compiler.rb:45-51 | a body is its leading forms compiled for effect followed by its last form compiled for value |
| FormProps.BodyOfOne | compiler.rb:45-51 | a one-form body is that form compiled for value |
| Linkage.IfLayout | compiler.rb:316-327 | `if` lays out the condition, JUMP_IF_FALSE past the true branch, the true branch, JUMP past the false branch, and the false branch |
| Linkage.IfFalseLandsOnElse | compiler.rb:321 | with `#f` on top, the compiled JUMP_IF_FALSE lands on the first instruction of the false branch |
| Linkage.IfTrueFallsIntoThen | compiler.rb:316-322 | with anything else on top, it falls into the true branch |
| Linkage.ThenJumpsPastElse | compiler.rb:323 | the JUMP after the true branch lands just past the whole `if` |
| Linkage.LambdaLayout | compiler.rb:225-248 | a lambda is PUSH_FUNC, its parameter code, its body compiled against the parameters alone, RETURN and ENDF |
| Linkage.LambdaOfName | compiler.rb:240-247 | a lambda whose body is a name compiles to a function value whose body is well nested |
| Linkage.LambdaValueSkipsBody | compiler.rb:240-247 | stepped where it lies, such a lambda pushes its body's address and resumes just past the function |
| Linkage.LoadedInPlace | vm.rb:77-81 | loaded code lies where the instruction pointer starts, so the lambda lemma applies to loaded programs |
| HaltProps.CompileHaltFree | compiler.rb:53-89 | no compiled form contains HALT |
| HaltProps.ProgramHalt | compiler.rb:13-17 | a compiled program holds exactly one HALT, as its last instruction, when asked for one and none otherwise; both compile alike |
| Macros.UnquoteNames | compiler.rb:308-314 | each occurrence of a pattern variable is wrapped in `unquote`; other atoms stay and lists keep their length |
| Macros.FillUnquotedIsSubst | compiler.rb:308-314 | filling the unquoted template with bindings for the pattern variables substitutes them in the original template |
| Macros.ParseRule | compiler.rb:298-299 | a rule's variables are its pattern without the head |
| Macros.SyntaxRules | compiler.rb:295-306 | the transformer exists exactly when every rule reads, and is `(lambda (expr) ...)` |
| Macros.ChainDefined | compiler.rb:297-304 | the nested rule chain exists exactly when every rule reads |
| Macros.ChainSelectsFirstMatch | compiler.rb:296-305 | the chain chooses the first rule, in source order, whose pattern length equals the form's, and falls back to the empty list |

## Left out

- Machine.ExecPushArg: an empty argument queue fails with EmptyQueue. The source pushes nil there (`args.shift`), which only matters when the parameter is later read.
- Machine.ExecCall: the frame receives a copy of the staged arguments. The source stores the very `@call_args` array, so later PUSH_ARG and PUSH_ARGS drain the staging list too. A zero-argument call, which stages nothing, then sees the drained list in the source but the previous staged list here.
- Machine.ExecApply: the same by-value copy of the staged arguments.
- Machine.SpreadLast: the walk over the applied list is bounded by the heap size. A cyclic chain, where the source loops forever, fails here instead.
- Machine.ExecPushCons: an operand stack with fewer than two addresses fails with EmptyStack. The source builds a pair of nils.
- Machine.ExecPushList: a count larger than the stack fails. The source conses nils for the missing elements.
- Machine.ExecDup: an empty stack fails. The source pushes nil.
- Machine.ExecSetLocal: an empty stack fails. The source binds the name to nil.
- Machine.ExecSetArgs: a count larger than the stack fails. The source stages nils.
- Machine.PopN: the same short-stack failure that ExecPushList and ExecSetArgs rely on.
- Bytecode.TextToInt: the optional `0d` / `0D` decimal prefix that Ruby's `to_i` accepts after the sign is not modelled; such text reads as 0.
- Machine.Operand: a missing operand cell is Malformed. The source fetches nil, and `nil.to_i` is 0.
- Machine.ExecJump: a target below address 0 fails with NegativeJump. The source's negative index would read the heap from its end.
- Machine.ExecJumpIfFalse: the same negative-target failure.
- Machine.Exec: opcodes that the compiler's text names but the machine's table lacks have no semantics. Because of CMP_EQ_NUM (below), the source's compiler never gets as far as emitting any of them:
  - PUSH_CHAR, APPEND, STR_REF, STR_LEN and LIST_TO_STR.
  - INT_WRITE and INT_INCLUDE are not opcodes but INT operand codes, and the machine defines neither. Here they are opcode tokens that are not in the table. So INT followed by either is INT with a non-integer operand: Machine.ExecInt passes over the operand cell and records no output. In the source, `VM::INT_WRITE` and `VM::INT_INCLUDE` name no constant, so even with CMP_EQ_NUM supplied, `write` and `include` could not be compiled.
  - CMP_EQ_NUM, for `=`, is one of them. The machine never defines the constant, so the source's compiler cannot even be loaded next to it. It is not recorded as a finding because no single intended opcode is evident.
- Machine.Init: the machine starts with an empty heap. Loading the bundled Scheme libraries at start-up is not modelled.
- Machine.Run: execution is bounded by a step count (fuel). Running out of fuel ends in `Running`, not in an error.
- Machine.ExecInt: output is recorded as raw addresses or cells. Turning values into text (`to_s` of each value class) and the standard-output stream are not modelled.
- DEBUG and the execute loop's `debug:` tracing only print. DEBUG is a no-op here.
- The value classes (`Int`, `ByteArray`, `Pair`, `Atom` and the singletons) are not part of this model beyond what the handlers use. Integers are unbounded, and CMP_EQ compares the two heap cells for equality.
- Compiler.LambdaParams: `(lambda)` without a parameter list and list-valued parameters are refused with BadParams. The source compiles both: `compact` drops the missing name, and `push_arg` flattens the list. As a result, macros whose patterns nest lists, such as `(_ (a b) c)`, fail to compile here.
- Compiler.Define: a name that is not an atom, as in `(define (f x) 1)`, is refused with BadName. The source emits SET_LOCAL followed by the flattened list.
- Macros.ParseRule: a rule without a template is refused. The source takes its template to be nil. A rule whose pattern is an atom is refused too, and so is a rule that is itself an atom. The source handles an atom pattern differently: `pattern[1..-1]` is the atom's text minus its first character, and that text becomes the single rest parameter of the transformer's lambda. `names.include?` then becomes a substring test. With an atom template, as in `(syntax-rules () (foo bar))`, the source records a transformer whose template is `bar`, kept as it is because `"oo"` does not contain `"bar"`. With a list template, the substring test raises. An atom rule splits into the atom as its pattern and nil as its template.
- Compiler.Dispatch: macro expansion is a parameter of the compiler. It stands for compiling the transformer call, running it on a fresh machine and popping the result.
  - A failed expansion is ExpansionFailed. The source's `rescue` names an exception the machine never raises.
  - Expansion depth is bounded by fuel, which ends in OutOfFuel. The source's recursion is unbounded.
- Linkage.LambdaValueSkipsBody: the skip over a function value is proved for a body that is a single name, and via MachineProps.FuncSkipLands for any well-nested body. That every compiled body is well nested is not proved.
- `pretty_format`, `pretty_print`, the parser, `include` (reading a file) and `write` (I/O) are not modelled beyond the code they emit.

## Findings

| source | as written | input that shows it | evidently intended | confidence | as-written member | corrected member |
|---|---|---|---|---|---|---|
| vm.rb:134-142 | PUSH_ARGS starts from `address = nil` and pushes it unchanged when the argument queue is empty, although the empty list `last` has just been allocated | `((lambda args args))`: `args` is bound to nil and reading it fails with VariableUndefined; MachineProps.PushArgsEmptyQueue states both behaviours | an empty rest parameter is the empty list `()` | not executed | Machine.PushArgsAsWritten | Machine.ExecPushArgs |
