# oklang, modelled and proved

oklang is a small scripting language: an expression parser driven by two precedence tables,
a one-pass compiler to bytecode, a stack machine with shared captured variables, and a
mark-sweep collector. This project models these parts and proves what they are for:

* **Compiled programs mean what their source means.** `Semantics` is a reference interpreter
  over named bindings. `CodeGen` is the code the compiler is meant to produce, with every jump
  computed from its target. `Compiler` is the compiler as it is written, a class that appends
  bytes, keeps a table of locals and patches jumps afterwards; it is proved to produce exactly
  that code and to report an error exactly for the programs `Checks` refuses. `Machine` decodes
  and runs the bytes. `Theorems` joins them: same outcome, same printed trace, same divergence,
  never outside the code or below the frame.
* **The stack is the machine's own.** `Storage` is the fixed vector whose push loses the value
  once the vector is full. `Bounded` is the machine on it, which agrees with the unbounded one
  exactly until a push meets the capacity, be it the push of a value that stays or the one with
  which printing hands over a heap object. `Headroom` computes from a program's text how much
  room it needs; `Capacity` restates the theorems on the real stack for every program whose
  script and functions, called to the greatest depth, leave a slot free. `Overflow` gives
  accepted programs that do meet the capacity, in either way.
* **Discipline of every run.** `Shapes`, `ShapedCode` and `Functions` give every instruction of
  every compiled function a shape of the stack; `Frames` and `Discipline` prove that every
  reachable state has it: heights fixed by code positions, calls that leave one value and touch
  nothing below, variables not declared `mut` that never change.
* **Captured variables.** `Upvalues`, `OpenUpvalues`: the list of open upvalues, changed in
  place, behaves as a store of shared cells. `Resolver`: names captured at compile time lead to
  the nearest enclosing declaration. `Closures` and `EndToEnd` join the two.
* **The expression parser** accepts exactly the precedence grammar, and printing with the fewest
  parentheses is undone by parsing (`Pratt`, `Grammar`, `Printing`, `Parser`, `Faults`).
  `Precedence` says in tokens and trees how every pair of operators groups.
* **The collector** over linked objects with mark bits: what it marks and frees, for any work
  list an earlier collection left behind (`Marking`, `Collector`).
* **Encodings**: source positions kept as runs (`Chunk`), little-endian operands (`Bytecode`),
  UTF-8 validation against sections 3 and 4 of RFC 3629 (`Utf8`).

* **Laws that use no table.** What both sides of these theorems share is pinned on its own:
  the operators by what they abbreviate and when they have a result (`Values`, `Operators`),
  loops by one another (`Statements`), the depth of calls (`Nesting`), the format by bytes
  written out (`Bytecode`, `Samples`).

Numbers are IEEE doubles kept abstract: `Values.ARITH` is an uninterpreted record of operators
that both the interpreter and the machine call.

Properties one would expect and the code does not have are stated with the inputs that show it
and the exact condition under which they hold:

* a push at full capacity: one declaration too many, or a string printed at a full stack
  (`Overflow.CapacityIsMet`, `Overflow.PrintLosesLocal`, `Bounded.AgreesForever`);
* tracing stops after as many rounds as there were gray objects at its start, so reachable
  objects may stay unmarked, and the work list is never emptied, so a later collection may mark
  unreachable objects or look at freed ones (`Marking.ChainIsLost`, `Marking.StaleMarksGarbage`,
  `Marking.StaleIsFreed`, `Marking.MarkingExact`, `Collector.Gc.Collect`);
* `!=` on two different numbers, booleans or functions is false (`Values.NotEqualNegatesEqual`,
  `Theorems.UnequalPrintsFalse`);
* a null left operand is dereferenced when parentheses around a token that starts no expression
  stand before `=`, where an assignment may be read (`Faults.ExpressionFaults`);
* a conditional store to a slot above 255 is written with more bytes than are read back
  (`Bytecode.ConditionalStoreReadBack`);
* a scope's end closes captured locals only at the top of the stack
  (`Upvalues.ScopeEndDetaches`);
* break and continue pop captured locals and close nothing (`Upvalues.LeavingKeepsExactly`);
* the jump of `and` and `or` skips the right operand on true under both, and never leaves a
  value (`Logical.JumpExact`, `Logical.OrPrintsLocal`);
* a `mut` variable captured through two functions is refused as immutable
  (`Resolver.StoreThroughOneLevel`).

The theorems about compiled programs assume that no collection runs between two instructions.

## Model

| member | source | states |
|---|---|---|
| Theorems.MeaningPreserved | src/vm.cpp:1124-1772 | on the machine with an unbounded stack: for every program that compiles in the modelled language, it halts in a state (finished or run-time error, with its whole output) if and only if the source has the outcome that state stands for |
| Theorems.ProgramSim | src/compiler.cpp:53-90 | for every amount of fuel the machine (unbounded stack, as in all Theorems rows) reaches the interpreter's outcome, and is still running with the same output where the fuel runs out |
| Theorems.FinalLocals | src/compiler.cpp:458-474 | at the end of the script the stack holds the script's slot and above it exactly the final values of its variables, in order |
| Theorems.NeverStuck | src/vm.cpp:2041-2069 | no run of a compiled program reads outside the code, below its frame, past the constants, or an unknown opcode |
| Theorems.DivergencePreserved | src/compiler.cpp:825-901 | the machine runs forever if and only if no amount of fuel suffices the interpreter |
| Theorems.TracesAgree | src/compiler.cpp:1260-1264 | machine and interpreter print the same trace, endless runs included |
| Theorems.UnequalPrintsFalse | src/vm.cpp:435-458 | a concrete program: `print true != false;` prints false |
| Values.NotEqualNegatesEqual | src/vm.cpp:435-458 | `!=` is the negation of `==` exactly when the operands are not two different numbers, booleans or functions |
| Values.EqualExactly | src/vm.cpp:435-476 | where `==` is no error it is true exactly for two nulls, one boolean twice, two numbers the host calls equal, two strings of one content, two functions of one name |
| Values.KindsDiffer | src/vm.cpp:435-440 | a value that is no heap object is unequal to every value of another kind, and `!=` is true there |
| Values.EqualityDefined | src/vm.cpp:460-492 | `==` and `!=` are errors exactly for a heap object on the left with none of its kind on the right |
| Values.DefinedExactly | src/vm.cpp:342-818 | every other infix operator has a result exactly for two numbers under the arithmetic, comparing and compound ones (no zero divisor under `/`), or two strings under `+` |
| Values.ResultsExactly | src/vm.cpp:342-581 | and the result is the host's on numbers, the joined content on strings; the greater comparisons are the smaller ones with their operands exchanged |
| Values.PrefixExactly | src/vm.cpp:924-988 | each prefix operator that needs no variable has a result for one kind of value, and `!` exchanges true and false |
| Operators.CompoundMeans | src/compiler.cpp:376-434 | for every variable, expression and environment, `x += e` has the value, environment, output and failures of `x = x + e` unless both operands are strings, `x /= e` those of `x = x / e` unless it divides by zero, and `-=` and `*=` always |
| Operators.StepMeans | src/vm.cpp:990-1025 | `++x` and `--x` are `x += 1` and `x -= 1` in every respect |
| Operators.PostfixMeans | src/vm.cpp:1056-1090 | `x--` does what `--x` does and has the value x had; `x++` always fails |
| Operators.StoresExactly | src/compiler.cpp:376-434 | exactly the ten compound operators ask that the latest declaration of their left operand's name says mut |
| Operators.OtherStores | src/compiler.cpp:1022-1128 | assignment and the four increments and decrements ask for the same |
| Operators.OnlyVariables | src/compiler.cpp:1022-1128 | none of them takes a left operand that is no variable |
| Operators.StoredExactly | src/compiler.cpp:1775-1792 | a conditional store keeps exactly numbers, booleans and null |
| Statements.ForMeans | src/compiler.cpp:845-901 | a for loop whose body does not continue is, in every outcome, a block of its initializer and a while loop whose body ends with the increment |
| Statements.ContinueAtEnd | src/compiler.cpp:903-939 | a continue at the end of a loop's body changes nothing: it leads to the increment |
| Samples.SampleBytes | src/chunk.hpp:44-160 | a script with a function, a while loop, a call and an if, as the exact bytes and constants it compiles to |
| Samples.SampleAdmitted | src/compiler.cpp:53-90 | and it is accepted and in the modelled language, so every theorem above is about it |
| Samples.OrderPrints | src/vm.cpp:1163-1772 | a program that shows the order: operands and arguments from left to right, parameters in the order of the arguments, for any strings and booleans |
| Storage.PushExact | src/vm.hpp:36-46 | a push appends to the live stack if and only if the top is below the end of the vector, and then the vector does not grow |
| Storage.PushLost | src/vm.hpp:36-46 | at the end of the vector the value is lost, and the next push takes effect in its place |
| Storage.ValueStack.Push | src/vm.hpp:36-46 | the push as written has the effect these two lemmas are about |
| Storage.ValueStack.Pop | src/vm.hpp:60-68 | a pop returns the last value of the live stack and leaves the others |
| Storage.ValueStack.Set | src/vm.hpp:70-80 | a write changes exactly one slot |
| Storage.ValueStack.Resize | src/vm.hpp:112-116 | lowering the top keeps exactly the values below it |
| Bounded.AgreesExactly | src/vm.hpp:36-46 | the machine on the real stack does what the unbounded one does through step n if and only if no step so far led to a height above 16384 or printed a heap object at a height of 16384 |
| Bounded.AgreesForever | src/vm.cpp:1092-1096 | for whole runs: the machines agree at every step if and only if every state has room for itself and for the copy of the heap object it may be about to print |
| Bounded.FitsAgree | src/vm.hpp:455-456 | the first step that is not clear in this sense is where the two machines part |
| Bounded.PrintAtFull | src/vm.cpp:2304-2323 | printing a heap object at a full stack loses the pushed copy, and the two pops take the object and the value below it |
| Capacity.FramesLow | src/vm.hpp:455-456 | frame j ends at most at 1 + the script's need + j times the most demanding function's need, all computed from the text |
| Capacity.RoomyFits | src/vm.hpp:455-456 | if 1 + the script's need + 63 times that of the most demanding function is below 16384, no state of any run is without room, printing included |
| Capacity.RoomyAgrees | src/vm.hpp:30-134 | such a program runs on the real stack exactly as on the unbounded one |
| Capacity.MeaningPreserved | src/vm.cpp:1163-1772 | meaning preservation on the real stack |
| Capacity.FinalLocals | src/vm.cpp:1694-1723 | the final values of the variables on the real stack |
| Capacity.HeightsAreStatic | src/vm.hpp:455-456 | on the real stack every frame has the height its position prescribes, and the vector still has its initial size, 256 times 64 |
| Capacity.NeverStuck | src/vm.cpp:2041-2069 | no stuck state on the real stack |
| Capacity.DivergencePreserved | src/vm.cpp:1767-1772 | divergence on the real stack |
| Capacity.TracesAgree | src/vm.cpp:1163-1772 | printed traces on the real stack |
| Overflow.CapacityIsMet | src/vm.hpp:36-46 | 16384 declarations in a row are accepted; the two machines agree up to the last one and part there |
| Overflow.PrintLosesLocal | src/vm.cpp:1600-1612 | 16382 declarations and a printed string are accepted and never exceed the capacity; the machines part at the print, which takes the last local off the stack |
| Overflow.LetsRoomyExactly | src/vm.hpp:455-456 | the guard on the text admits exactly the scripts of up to 16381 declarations |
| Compiler.Compiler.CompileSource | src/compiler.cpp:53-90 | the compiler class returns a script if and only if the program passes the static checks, and the script is byte for byte the specified code with the specified constants |
| Compiler.Compiler.CompileStmt | src/compiler.cpp:183-247 | every statement form adds exactly its code, constants, locals and pending jumps to what was there, and has an error exactly when its checks fail |
| Compiler.Compiler.CompileExpr | src/compiler.cpp:191-456 | every expression form adds exactly its code and constants; an error exactly when refused |
| Compiler.Compiler.CompileIf | src/compiler.cpp:802-823 | both branches with their patched jumps |
| Compiler.Compiler.CompileForLoop | src/compiler.cpp:845-901 | a for loop with its scope, guard, increment, back jump and patched breaks and continues |
| Compiler.Compiler.CompileControlFlow | src/compiler.cpp:903-939 | break and continue pop exactly the locals above the loop's and record where their distance goes |
| Compiler.Compiler.PatchLoopContext | src/compiler.cpp:1934-1950 | exactly the recorded operands are overwritten with the distances to their targets |
| Compiler.Compiler.DeclareVariable | src/compiler.cpp:1611-1658 | a declaration is an error exactly when the name is taken in its scope or the slots run out, and otherwise becomes the next slot |
| Compiler.Compiler.EndScope | src/compiler.cpp:1477-1512 | leaving a scope drops exactly its locals, at compile time and in the code |
| Compiler.Compiler.DoCompileFunction | src/compiler.cpp:512-551 | a function is compiled in a context of its own, and the enclosing one gets it as a constant and nothing else |
| Checks.OncePerScope | src/compiler.cpp:1611-1658 | two declarations of a name in one scope are refused whatever stands around them; in a nested scope the name is free while there are 16777216 slots |
| Checks.NotItself | src/compiler.cpp:458-474 | a variable is not initialized with itself |
| Checks.JumpsNeedLoops | src/compiler.cpp:903-939 | break and continue are refused exactly without a loop around them, through blocks, ifs and functions |
| Checks.CallsAndParameters | src/compiler.cpp:1279-1290 | a call is refused exactly with more than 255 arguments, a parameter list exactly with a repeated name |
| Checks.JumpsReachExactly | src/compiler.cpp:1902-1932 | an if and a loop of accepted parts are refused exactly when a distance in them is 2 to the 24th or more |
| Checks.OutsideExactly | src/compiler.cpp:248-434 | of infix expressions exactly the logical ones, `^`, and compound assignments to a slot above 255 are outside the modelled language |
| Patching.PatchLoopBody | src/compiler.cpp:1934-1950 | patching the recorded holes of an open loop gives the loop with all its targets |
| Patching.PatchStmt | src/compiler.cpp:1902-1932 | for every statement, code compiled with unknown targets and patched afterwards is the code compiled with known ones |
| Lengths.CodeLength | src/compiler.cpp:1893-1932 | code length depends neither on where it is placed nor on where its jumps lead |
| Bytecode.DecodeEncoded | src/vm.cpp:2041-2069 | decoding at an encoded instruction returns it and the position behind it |
| Bytecode.ConditionalStoreReadBack | src/compiler.cpp:1775-1792 | a conditional store is read back whole if and only if its slot fits one byte |
| Bytecode.DecodeEncode | src/utility.hpp:61-83 | decoding returns every number that fits the width it was encoded in |
| Bytecode.EncodeDecode | src/utility.hpp:61-83 | every byte string is the encoding of the number it decodes to |
| Bytecode.DecodeIntLoop | src/utility.hpp:73-83 | the decoding loop as written computes the little-endian value |
| Bytecode.ThreeBytes | src/utility.hpp:61-83 | three bytes are a + 256 b + 65536 c, and a number comes back from them exactly below 2 to the 24th |
| Bytecode.ReadBackExactly | src/chunk.hpp:160-164 | a jump, loop, constant or local instruction is read back if and only if its operand is at most 16777215 |
| Bytecode.FormsByIndex | src/chunk.hpp:197-218 | the short form is written exactly up to index 255, the long one up to 16777215, and a constant past that not at all |
| Bytecode.OperatorsInOrder | src/chunk.hpp:80-115 | the operators' opcodes are 28 to 62 in the order of the enum, each read back as its operator |
| CodeGen.PopsCount | src/compiler.cpp:1531-1547 | n values are popped by one instruction for every 255 and one for the rest |
| Logical.JumpExact | src/vm.cpp:1739-1760 | the jump of `and` and `or` goes where it should, with what it should leave, if and only if the left operand is no boolean, which is an error |
| Logical.TrueLeft | src/compiler.cpp:1266-1277 | with a true left operand the whole expression, under either operator, ends with no value on the stack |
| Logical.OrPrintsLocal | src/vm.cpp:1739-1760 | `let a = null; print true or false;` prints null |
| Calls.StepCall | src/vm.cpp:2091-2142 | a call opens a frame over the callee and its arguments, or fails exactly when it should; SixtyFourFrames says in numbers when that is |
| Nesting.SixtyFourFrames | src/vm.hpp:217-226 | a family of programs, k calls one inside another: up to 63 finish, with exactly k + 1 frames at some step; from 64 on there are 64 frames at some step and the run ends in a run-time error |
| Simulation.ListSim | src/compiler.cpp:183-189 | a list of statements, run on the machine, does what the interpreter does: next statement, return, break and continue at their targets, failure, or out of fuel |
| Simulation.BodySim | src/compiler.cpp:512-551 | a whole function body up to its explicit or implicit return leaves its value in the caller's frame |
| Functions.VisitsTable | src/vm.cpp:1163-1180 | the positions that have a shape are exactly the instructions met when decoding from byte 0: jumps never land inside one |
| Frames.StepSound | src/vm.cpp:1163-1772 | every instruction keeps every frame in the shape its position prescribes |
| Discipline.HeightsAreStatic | src/compiler.cpp:1611-1658 | (unbounded stack; Capacity.RoomyAgrees carries this and the next three rows over to the real one) at every state of every run each frame's height is the one of its code position, whatever path led there; at most 64 frames, a bound SixtyFourFrames meets, each above the one below |
| Discipline.BelowKept | src/vm.hpp:217-226 | while a frame lives nothing below it changes: no caller's position, no value up to its slot 0 |
| Discipline.CallReturns | src/vm.cpp:1190-1213 | a call that returns has replaced callee and arguments by exactly one value and changed nothing else |
| Discipline.ImmutableStays | src/compiler.cpp:1022-1128 | a variable not declared mut holds one value for as long as its scope lasts, through every call |
| Upvalues.CaptureTwice | src/vm.cpp:2181-2201 | two captures give the same object if and only if they are of the same slot |
| Upvalues.CloseExact | src/vm.cpp:2203-2212 | closing detaches exactly the upvalues at or above the slot, each with its slot's value |
| Upvalues.CloseKeepsValues | src/vm.cpp:2203-2212 | nothing a closure can read changes when its upvalue is detached |
| Upvalues.RunRefines | src/vm.cpp:1803-1832 | over every legal run the machine's locals and upvalues are a store of shared cells |
| Upvalues.SharedBothWays | src/vm.cpp:1803-1832 | while the slot is live, storing to the variable and storing through its upvalue are the same, seen from both and from no other |
| Upvalues.OwnVariable | src/vm.cpp:1803-1832 | a detached upvalue is a variable of its own |
| Upvalues.ReturnKeeps | src/vm.cpp:1190-1213 | a return detaches exactly the frame's captured slots, and no upvalue changes its value |
| Upvalues.ScopeEndDetaches | src/compiler.cpp:1497-1512 | closing at the top of the stack leaves every upvalue of the scope detached if and only if no local below the topmost is captured |
| OpenUpvalues.UpvalueList.CaptureValue | src/vm.cpp:2181-2201 | the search and insertion in the linked list capture the slot |
| OpenUpvalues.UpvalueList.CloseUpvalue | src/vm.cpp:2203-2212 | unlinking in place closes the upvalues at or above the slot |
| OpenUpvalues.UpvalueList.GetUpvalue | src/vm.cpp:1803-1826 | reading an upvalue object gives the slot it points to while that is live and its own value afterwards |
| OpenUpvalues.UpvalueList.MakeClosure | src/vm.cpp:1783-1802 | each descriptor gives the open upvalue of its slot or the enclosing closure's own object |
| OpenUpvalues.UpvalueList.Return | src/vm.cpp:1190-1213 | result, closing, dropping and pushing, in this order |
| Upvalues.LeavingKeepsExactly | src/compiler.cpp:1514-1529 | after a break or continue what closures read stays the same, whatever is pushed next, if and only if no local it pops is captured |
| Resolver.PackInjective | src/compiler.hpp:118-141 | packed descriptor words are equal if and only if index and flag are |
| Resolver.IndexAlone | src/compiler.hpp:118-141 | setting the index of a packed word leaves its flag |
| Resolver.FlagAlone | src/compiler.hpp:118-141 | setting the flag leaves the index |
| Resolver.RequestLexical | src/compiler.cpp:1726-1773 | an index is returned if and only if an enclosing function declares the name, and its chain ends at the nearest one's highest slot for it; earlier chains keep their ends |
| Resolver.RequestCaptures | src/compiler.cpp:1726-1749 | exactly that local is marked as captured |
| Resolver.RequestTwice | src/compiler.cpp:1751-1773 | asking again gives the same index and changes nothing |
| Resolver.OverflowsExactly | src/compiler.cpp:1751-1773 | a table overflows exactly at a new entry when it holds 16777216 |
| Resolver.ContextStack.ResolveUpvalue | src/compiler.cpp:1726-1749 | the recursive method as written computes this request |
| Resolver.StoreThroughOneLevel | src/compiler.cpp:1022-1128 | a store to a captured mut variable is accepted if and only if the variable belongs to the function directly around |
| Closures.NameReadsVariable | src/vm.cpp:1803-1826 | in a bound closure, the index the compiler got for a name reads the cell of the variable the name stands for |
| EndToEnd.CompileMeaning | src/vm.cpp:1124-1155 | the compiler class's own output runs as the program means, and does so on the real stack for every program with low frames |
| EndToEnd.ExpressionReadBack | src/parser.cpp:122-157 | every writable expression of the compiled language is parsed back from its printed tokens |
| EndToEnd.MakeBoundClosure | src/vm.cpp:1783-1802 | run on the table built at compile time, the closure instruction makes a closure whose upvalues are the variables they should be |
| Printing.ExitContract | src/parser.cpp:122-157 | without an error the tokens passed are a form of the grammar with the returned tree, the cursor is on its last token, and the next token does not bind tighter |
| Printing.AcceptsGrammar | src/parser.cpp:122-157 | there is no error if and only if a form of the grammar stands there, followed by something that does not bind tighter |
| Printing.Unambiguous | src/parser.cpp:19-111 | one spelling has one tree |
| Precedence.TighterFirst | src/parser.hpp:15-40 | for any three atoms and any two operators from different levels, written out level by level, `a op b op' c` is read around the tighter one, in both orders |
| Precedence.Neighbours | src/parser.hpp:15-40 | the same for one operator of each level against one of the next, with every token and tree written out |
| Precedence.LadderHolds | src/parser.hpp:15-40 | every infix operator stands on exactly one of these levels |
| Precedence.SameLevel | src/parser.cpp:44-106 | operators of one level are read from the left, compound assignments from the right |
| Precedence.ParenthesesFirst | src/parsers.hpp:227-235 | parentheses group any two operators either way |
| Precedence.AssignmentLast | src/parsers.hpp:428-453 | `=` is read from the right, takes every operator behind it, and stands behind a compound assignment like one |
| Precedence.ConditionalBehind | src/parser.hpp:15-40 | a conditional takes every operator before it except the assignments |
| Precedence.ConditionalBefore | src/parser.hpp:15-40 | and behind it likewise |
| Precedence.ConditionalAround | src/parsers.hpp:390-410 | between its two signs it takes every operator |
| Precedence.ConditionalGroups | src/parsers.hpp:390-410 | conditionals are read from the right |
| Precedence.ConditionalAssigned | src/parser.hpp:15-40 | `=` takes a whole conditional, and a conditional takes `=` only between its two signs |
| Precedence.PrefixBinds | src/parser.cpp:19-38 | a prefix operator takes its operand before any infix operator, after postfix operators and calls |
| Precedence.PostfixBinds | src/parser.cpp:46-52 | postfix operators and calls take the operand right before them |
| Precedence.TargetIsName | src/parsers.hpp:428-453 | an atom before `=` is accepted exactly when it is a name, with one error otherwise |
| Precedence.NothingToRead | src/parser.cpp:122-133 | a token that starts no expression gives one error and no tree |
| Precedence.ParenthesisExpected | src/parsers.hpp:227-235 | so do parentheses that are not closed |
| Printing.RoundTrip | src/ast.hpp:414-732 | parsing a printed tree gives the tree back and consumes exactly its tokens, in any context |
| Printing.ShowIsShortest | src/parser.hpp:15-40 | no way of writing a tree has fewer tokens than the printed one |
| Printing.FaultNeedsError | src/parsers.hpp:428-453 | a null left operand is dereferenced only after an error was recorded |
| Faults.ExpressionFaults | src/parsers.hpp:428-453 | one call of the expression parser dereferences a null operand if and only if one of the operands it reads, at a level that takes assignments, is a pair of parentheses around a token that starts no expression, in front of `=` |
| Faults.FaultsExactly | src/parsers.hpp:227-235 | some expression read in a token sequence does so if and only if such parentheses stand before `=` in it |
| Faults.FaultExists | src/parsers.hpp:428-453 | `() = null` is such a sequence |
| Parser.Parser.ParseExpression | src/parser.cpp:122-157 | the loop over the cursor, the error list and its latch computes the specified result and state |
| Parser.Parser.ParseError | src/parser.hpp:104-124 | only the first error of a statement is recorded |
| Marking.MarkingExact | src/gc.cpp:95-103 | for any leftover work list: everything reachable is marked if and only if it is found in the given number of rounds, and everything marked is reachable if and only if the leftover objects that get a turn refer to reachable ones |
| Marking.CollectsExactly | src/gc.cpp:24-41 | the list keeps exactly the reachable objects if and only if both conditions on the heap at entry hold |
| Marking.ClosedRootsExact | src/gc.cpp:95-103 | with nothing left over and roots that refer only to roots, marked is reachable |
| Marking.ChainIsLost | src/gc.cpp:95-103 | a chain of three objects: the last is reachable and stays unmarked |
| Marking.StaleMarksGarbage | src/gc.cpp:95-103 | a later collection marks an object that no root reaches |
| Marking.StaleIsFreed | src/gc.cpp:238-266 | an object that was freed is still on the work list |
| Marking.LeftoverMarked | src/gc.cpp:117-126 | a first collection leaves marked objects only on the work list |
| Marking.NextIsSafe | src/gc.cpp:238-266 | after an exact collection everything the next one looks at is still on the list if and only if no leftover object was freed |
| Collector.Gc.TraceReferences | src/gc.cpp:95-103 | tracing the linked objects follows the specified marking |
| Collector.Gc.Sweep | src/gc.cpp:238-266 | the object list keeps exactly its marked objects, in order, with their marks cleared |
| Collector.Gc.Collect | src/gc.cpp:24-41 | one collection from any leftover work list: what stays on the list and in the intern table, no interned string freed, all marks cleared, and the exact condition for keeping just what is reachable |
| Collector.RefsExact | src/gc.cpp:137-207 | tracing marks exactly what the fields of an object hold, kind by kind |
| Collector.RootsExact | src/gc.cpp:55-93 | the roots are exactly what the nine places hold |
| Collector.Gc.NothingDangles | src/gc.cpp:24-41 | after a collection that keeps just the reachable objects, whatever a root or an object of the list holds is on the list |
| Chunk.LookupExact | src/chunk.hpp:283-293 | looking up an index in the runs is indexing the plain array of positions |
| Chunk.Chunk.GetOffset | src/chunk.hpp:283-293 | the position of a byte is the one supplied when it was written, after any writes and patches |
| Chunk.Chunk.WriteConstant | src/chunk.hpp:197-218 | short and long forms by index, with the position of every byte |
| Utf8.ValidationExact | src/utf8.hpp:93-106 | a text is accepted if and only if it is the encoding of a sequence of Unicode scalar values |
| Utf8.CodepointExact | src/utf8.hpp:53-91 | a code point is accepted if and only if the octets of some scalar value stand there |
| Utf8.EncodingUnique | src/utf8.hpp:53-91 | and that sequence is unique |
| Utf8.Validate | src/utf8.hpp:93-106 | the loop as written accepts exactly these; otherwise the text before the place it reports is the encoding of scalar values, no scalar value stands there, and the kind reported is what the lead octet announces |
| Utf8.FailsOnce | src/utf8.hpp:98-105 | a text has at most one such place |
| Utf8.Peek | src/utf8.hpp:13-38 | steps over valid text visit exactly its code point boundaries |

## Left out

- Collection between instructions: the theorems about compiled programs assume none runs; the collector is proved on its own heap.
- Bounded.AgreesExactly: nothing is said about what a run means after its first lost push; there the code goes on, while reads past the live stack are a stuck state here.
- The raw pointers open upvalues hold into the stack's vector, which a push at capacity may move.
- Strings compare by content here; the table of interned strings is keyed by a 64-bit hash alone (src/interned_string.cpp:14-36), so different contents with one hash are the same object in the code.
- Break and continue out of a scope with captured locals, in the main theorems: like all captured variables; what such a jump does to upvalues is LeavingKeepsExactly.
- Globals: a name that is no local of its function is outside the modelled programs.
- Captured variables in the compiled programs of the main theorems: they are proved on their own, at compile time and at run time, and joined in EndToEnd.
- Classes, objects' properties, methods, operator overloads, arrays, maps, modules, native functions, `super` and `this` as an expression.
- `and` and `or` in the main theorems: the compiler is proved to emit the specified code for them, but the jump in it does not do what they mean; see Logical.
- `^`: the compiler emits the modulo operator for it; excluded from the modelled programs.
- Postfix `++` on a number is a run-time error in the code; modelled as such.
- Conditional stores to slots above 255 are excluded from the modelled programs; ConditionalStoreReadBack says why.
- The conditional expression is parsed but has no compiled form.
- Break and continue that refer to a loop of an enclosing function: the compiler accepts them, WellPlaced excludes them.
- Compiler.Compiler.CompileSource: names that do not resolve after an error emit nothing; the contents of the code after an error are not specified.
- Compiler.Compiler.PatchJump: the truncation of distances to 32 bits for code of 4 GiB or more.
- Some steps are split over more methods than the source has: CompileThen, CompileGuard, CompileRound, CompileLoopBody, CompileIncrement, EndLoop, LeaveLoop, LeaveLocals and EmitVariable in the compiler, Reclaim in the collector, Attach in the list of upvalues.
- Source positions inside the compiler: the chunk class is proved separately.
- The native-call part of frames.
- Identity of closures: `==` on functions compares names in the code, and so here; a function value in the printed trace is compared up to compilation.
- Arithmetic: the operators on doubles are uninterpreted.
- The lexer, string escapes, malformed numbers, and the parsing of statements; the tokens for member access, subscripts, array and map literals, `this`, `super` and `~`.
- Positions and texts of error messages.
- What a destructor does: freed objects leave the list and keep their last contents.
- The upper bits of a fresh upvalue word: packed words start from zero.
- Upvalue tables that were full: RequestLexical says nothing about the index after an overflow is reported.
