# Monga: what the compiler keeps

Monga is a small statically typed language whose compiler analyses a set of syntax trees and lowers them to LLVM
assembly. This project models the two passes, analysis and code generation, as they run and as functions, gives the
source language and the generated code a meaning each, and proves that the two meanings are the same for every
program that analysis accepts and the code generator has cases for. Around that it proves what the helpers of the
compiler promise: type rules, record layout, the growable vector, the size of the dictionary, string literals and the
XML dump of trees.

## How it is laid out

- `Ints`: fixed-width integers, wrapping, sign extension and truncation. `Ast`: the annotated scalar syntax tree.
- `Source`: what a program means, as an interpreter over lexical scopes with a fuel bound on calls and iterations.
  A run ends with a result, in a trap (undefined behaviour of the source program, such as a division by zero, or a
  call to another module that never returns), or in `Wrong`: a broken typing rule, which analysis excludes, or the use
  of a void value or a cast of an integer to char, which have no meaning and which analysis lets pass. A call to a
  function of another module is an event with its arguments, and its result is the next of a list of answers.
- `Machine`: labels, branches, temporaries, stack cells and phis, with a small-step meaning. A read of a temporary
  that was not written, a branch to a label that is not placed and running into a label are all `Stuck`.
- `Codegen`: the emitted code as functions. `LlvmGen`: the code generator as it runs, a class with counters, a
  stack of locals and loop labels, whose methods emit exactly what the functions say.
- `Shape`: labels are placed once and temporaries are defined in increasing order. `WellFormed`: exactly which trees
  are compiled to well-formed code. `Lowerable`: the trees the generator has cases for, as checks of the tree.
- `Related`, `Stepping`, `ReturnPaths`, `Simulation`, `Preservation`: the code runs as the source does.
- `Raw`: the tree before analysis, whose definitions of variables carry the address of their node. `Sem`: analysis as
  functions. `SemAnalysis`: analysis as it runs, a class with a scope stack and a loop level. `Acceptance`: what is
  accepted, said without an order. `TypeAliases`: aliases. `ScopeDiscipline`: which scopes have a name twice.
- `Typing`: the type system, stated on annotated trees. `Meaning`, `TypeSafety`, `Annotations`, `NamesAgree`: what
  acceptance guarantees. `Pipeline`, `Driver`: both passes together. `Witnesses`: accepted programs that go wrong all
  the same.
- `TypeRules` and `RecordLayout`: the rules over all types, with records and arrays. `TypeWidths`: how many bits and
  bytes a type has, wherever that is used. `Vector`, `Dict`, `Strings`, `XmlDump`, `XmlPrinter` and `XmlRead`: the
  helpers.

## Main results

1. `Pipeline.AcceptedRunsAlike`: an accepted program without alias circles that the generator handles and its code end
   alike, trap alike after the same output and run forever alike, for every call with arguments of the declared types
   and all answers of other modules, and the machine is never stuck. `Driver.Compile` runs both passes on any program:
   there is code exactly if the program is accepted, and what the code does and when it is well formed follows.
2. `NamesAgree.NamesReachDefinitions`: in every function of an accepted program, at every variable that is compiled, the
   generator, which searches by name, finds a local exactly if analysis found a definition that is not global, and that
   local is the one made for that definition.
3. `WellFormed.WellFormedIff`: the code of an accepted function body has only usable instructions, all branch targets
   placed and one terminator for each block if and only if a check of the tree succeeds. The check fails for an
   `if` with exactly one arm that exits, and for some code after `break` or `continue`; `Witnesses` has the smallest
   such programs, proves that analysis accepts them, and says what is wrong with their code.
4. `Acceptance.AcceptedIff`: the five phases accept exactly the programs that a description without phases or a resolver
   accepts: distinct names, headers that name types, and bodies that can be annotated so that they are typed.
   `Typing.BlockIff`: resolution annotates a block in the one way in which it is typed, and accepts it exactly if there
   is one. `Acceptance.OrderIndependent`: permuting definitions changes nothing.
5. `ScopeDiscipline.ScopesOfEveryRun`: whatever is analysed, the global scope never has a name twice or a built-in name,
   and no scope of any body has if and only if no function with a body repeats or reserves a parameter name.
6. `Pipeline.AcceptedReturns`: a body of an accepted program that ends has returned a value of the declared type, unless
   the function is void; no premise about the generator. `Pipeline.AcceptedNeverWrong`: no run goes wrong if the
   program has no cast of an integer to char and no use of a void value; with one, it can (`Witnesses`).
7. `TypeAliases.TypesHaveMeaning`: in an accepted program every type name has a type under it if and only if no alias
   leads to itself, which analysis does not check (`CircleAccepted`).
8. `TypeRules.TransitiveIff`: assignability is transitive away from the error type except in one case, which exists.
9. `TypeWidths.WidthIsOfType`: the width of every type in the generated code is that of the LLVM type that is named
   there, and eight times the size that records are laid out with; `Ranges` says which numbers each type holds.
10. `RecordLayout.LayoutSound` and `LayoutLeast`, `Vector.Replay` and `RunsAreCheap`, `Dict.RunsStayWellSized`,
    `Strings.ReadsBackIff`, `XmlRead.ReadsDump`.

## Where the code and its intent differ

- `CompileIf` places the end label only if neither arm exits; with one arm that exits the branch to it dangles
  (`src/libmonga/codegen/llvmgen.c:673-687`). The code generator is modelled as it is; preservation asks for no such
  `if`, and `WellFormedIff` shows that this is needed.
- Analysis accepts bitwise not, casts of an integer to char and uses of void values, for which the generator has only
  a failing assertion (`src/libmonga/codegen/llvmgen.c:371-383` and `:494-505`); `Witnesses` has an accepted program
  for each. The last two have no meaning in the source language either.
- The parameters of a function that was refused because two of them have one name are still added to the scope of its
  body by force (`src/libmonga/sem.c:1017-1034`; a debug build fails its assertion there), so that scope has a name
  twice. `ScopesOfEveryRun` says exactly when, `ParameterTwice` is the smallest such program.
- Code after `break`, `continue` or a nested block that exits is still emitted. It is never run, but it can leave
  a block without a terminator; `WellFormedIff` says when.
- `allPathsExit` is never initialised (`src/libmonga/ast/block.c:6-15`); it is taken to start as false.
- Alias circles are accepted, and `GetUnderlyingType` never returns on them: a program with a circle and a body that
  uses it keeps the compiler busy for ever. Functions of the model follow at most as many aliases as there are, so that
  `AnalyseDefinitions` returns; results about types ask for aliases without circles.
- A record field of unknown type pops the scope of the record twice (`src/libmonga/sem.c:1087-1105`); records are not
  part of the analysis that is modelled.
- The body of a function whose declaration is refused is still resolved, with types that were never set; the model
  gives it the error type. The program is refused either way.
- `GetRecordDescAlign` does not look through aliases and `GetRecordDescSize` divides by the size of a void field; the
  model's methods have no result there, and their contracts say exactly when that is.
- Emitting a string that ends in a backslash, or has one before a control character, another backslash or two
  hexadecimal digits, writes a different string; `ReadsBackIff` is exact.

## Model

| member | source | states |
|---|---|---|
| Pipeline.AcceptedRunsAlike | src/libmonga/codegen/llvmgen.c:647-969 | for every accepted program without alias circles that the generator handles, every well-typed call and all answers of other modules: the machine ends with the image of a result exactly if the source has it, traps with an output exactly if the source does, runs forever exactly if the source does, and is never stuck |
| Driver.Compile | src/libmonga/codegen/llvmgen.c:1080-1100 | for any program, analysis and generation run one after the other yield code exactly if the program is accepted; the code of a function is well formed exactly if its tree passes the check, and without alias circles, if the generator handles the whole program, every well-typed call of the code behaves as its source |
| Driver.GenerateLLVM | src/libmonga/codegen/llvmgen.c:1080-1100 | for any accepted program there is code for exactly the functions with a body, each compiled from its own tree whatever loop labels the function before left behind |
| Pipeline.AcceptedNeverWrong | src/libmonga/sem.c:580-938 | no run of an accepted program that casts no integer to char and uses no void value, with any amount of fuel, goes wrong |
| Pipeline.AcceptedReturns | src/libmonga/sem.c:1040-1052 | in any run of a body of any accepted program, if the body ends, it has returned a value of the type of its function, unless that is void, and no break or continue has left it |
| Pipeline.CompilableMeans | src/libmonga/codegen/llvmgen.c:371-383 | what the generator has cases for has a meaning |
| Meaning.ValueMeans | src/libmonga/codegen/llvmgen.c:371-383 | the check is not too strict: an expression all of whose parts are evaluated and that fails it has no value in any run |
| Meaning.CharOfInteger | src/libmonga/codegen/llvmgen.c:381-383 | a cast of an integer to char goes wrong whenever the integer has a value |
| Witnesses.OneArmAccepted | src/libmonga/codegen/llvmgen.c:673-687 | analysis accepts a program with an `if` with one exiting arm; its code has a branch to a label that is placed nowhere |
| Witnesses.AfterBreakAccepted | src/libmonga/codegen/llvmgen.c:869-892 | analysis accepts a program with code after a break; all targets in its code are placed, and a block runs into a label |
| Witnesses.BitwiseNotAccepted | src/libmonga/codegen/llvmgen.c:477-507 | analysis accepts a bitwise not, and the generator reaches its failing assertion |
| Witnesses.CastToCharAccepted | src/libmonga/codegen/llvmgen.c:381-383 | analysis accepts a cast of an integer to char; the generator reaches its failing assertion, and every run goes wrong |
| Witnesses.VoidValueAccepted | src/libmonga/codegen/llvmgen.c:377-379 | analysis accepts the use of a void call; the generator reaches its failing assertion, and every run goes wrong |
| Pipeline.AcceptedWellFormed | src/libmonga/codegen/llvmgen.c:996-1038 | the code of an accepted function is well formed if and only if its tree passes the generator's check |
| Pipeline.FunctionIsTyped | src/libmonga/sem.c:1005-1052 | every body of an accepted program obeys the type system, has its jumps inside loops, distinct parameters and, unless void, a return on every path |
| Pipeline.FirstCall | src/libmonga/codegen/llvmgen.c:1069-1078 | with all globals at zero, a function without parameters can be called first: the premises of the preservation theorem are met |
| Preservation.EndsAlike | src/libmonga/codegen/llvmgen.c:819-969 | the machine reaches a final status exactly if the source has a result with that image: same value, globals and output |
| Preservation.TrapsAlike | src/libmonga/codegen/llvmgen.c:183-258 | the machine traps after some output exactly if the source traps after that output |
| Preservation.RunsForeverAlike | src/libmonga/codegen/llvmgen.c:709-739 | the machine never stops exactly if the source never ends, by a bound between fuel and steps |
| Preservation.NeverStuck | src/libmonga/codegen/llvmgen.c:647-739 | no run reads a temporary before it is written, branches to a label that is not placed or runs into a label |
| Preservation.Forward | src/libmonga/codegen/llvmgen.c:952-1038 | for any fuel the machine gets where the source gets, or is busy for at least as many steps as there was fuel |
| Preservation.Backward | src/libmonga/codegen/llvmgen.c:952-1038 | wherever the machine stops, the source ends or traps with the same result |
| Preservation.ResultsAgree | src/libmonga/codegen/llvmgen.c:996-1038 | two results of one call under different fuel are the same to the machine |
| Simulation.SimFunc | src/libmonga/codegen/llvmgen.c:996-1038 | parameters in cells of their own, then the body, up to a return of the value of the call; a void body that ends gets its return |
| Simulation.SimStmt | src/libmonga/codegen/llvmgen.c:819-896 | each statement takes the machine to the end of its code in a related state, to the end or check label of the enclosing loop after break or continue, or to a return of the right value |
| Simulation.SimBlock | src/libmonga/codegen/llvmgen.c:952-969 | a block, whose locals are forgotten at its end, leaves a state related to the outer scopes |
| Simulation.SimStmts | src/libmonga/codegen/llvmgen.c:952-969 | the statements that are dropped after one that returns are never needed |
| Simulation.SimIf | src/libmonga/codegen/llvmgen.c:688-706 | an `if` without else runs its arm or goes on behind it, also when the branch behind the arm is left out |
| Simulation.SimIfElse | src/libmonga/codegen/llvmgen.c:647-687 | an `if` with two arms that both exit or both do not runs the right arm and joins behind both |
| Simulation.SimLoop | src/libmonga/codegen/llvmgen.c:709-739 | the inverted loop, tested once before and once behind its body, runs as the source loop does for any number of iterations |
| Simulation.SimIteration | src/libmonga/codegen/llvmgen.c:716-738 | one iteration with loop labels saved and restored: break goes to the end, continue to the check, return leaves |
| Simulation.SimCond | src/libmonga/codegen/llvmgen.c:160-181 | code for a condition reaches the true label exactly if the condition is true, the false label otherwise; negation by swapped labels is logical not |
| Simulation.SimBinCond | src/libmonga/codegen/llvmgen.c:43-67 | the right operand of and/or is evaluated exactly if short-circuit evaluation evaluates it |
| Simulation.SimCompar | src/libmonga/codegen/llvmgen.c:85-117 | operands are compared as signed numbers after the right one takes the type of the left one |
| Simulation.SimConditional | src/libmonga/codegen/llvmgen.c:519-544 | the phi yields the value of the arm the source evaluates, however many blocks the arms have |
| Simulation.SimExp | src/libmonga/codegen/llvmgen.c:583-592 | the run-time value of an expression used at a type is its source value converted to that type |
| Simulation.SimBinary | src/libmonga/codegen/llvmgen.c:222-254 | arithmetic at the type of the left operand gives the source value wrapped to its width, or traps where it is undefined |
| Simulation.SimUnary | src/libmonga/codegen/llvmgen.c:477-507 | a negation that takes two temporaries and uses the second one yields the wrapped negation |
| Simulation.SimConversion | src/libmonga/codegen/llvmgen.c:300-330 | integer and char conversions keep the low bits and the sign of the source value |
| Simulation.SimVar | src/libmonga/codegen/llvmgen.c:597-612 | a load from the cell that the locals stack or the globals give reads the value of the variable the source scopes find |
| Simulation.SimCall | src/libmonga/codegen/llvmgen.c:898-950 | a call takes over the globals and output of its callee, and its result, and keeps the caller's frame |
| Simulation.SimExtern | src/libmonga/codegen/llvmgen.c:904-907 | a call to another module shows the same arguments, takes the same answer as its result, and never returns on one side exactly if it does not on the other |
| Simulation.SimArgs | src/libmonga/codegen/llvmgen.c:910-924 | arguments are evaluated left to right, each at the type of its parameter |
| Simulation.SimEcho | src/libmonga/codegen/llvmgen.c:786-808 | echo emits the event of the value: a char, or an integer widened to long |
| Simulation.SimAssign | src/libmonga/codegen/llvmgen.c:841-851 | a store changes the cell or global of the variable the source scopes find, and no other |
| Simulation.SimVarDef | src/libmonga/codegen/llvmgen.c:877-884 | a definition gets a new zeroed cell that later code finds under its name |
| Related.LookupIsLast | src/libmonga/codegen/llvmctx.c:84-96 | searching scopes from the inside is searching the flat list of bindings from its end |
| Related.FindLocalIs | src/libmonga/codegen/llvmctx.c:84-96 | the local that is found has the address of the binding the source scopes find, and none is found exactly if they find none |
| Related.ArithIs | src/libmonga/codegen/llvmemit.c:356-447 | on bit patterns each instruction yields the pattern of the mathematical result, and is undefined exactly where the operation is |
| Related.CompareIs | src/libmonga/codegen/llvmgen.c:85-117 | comparison of bit patterns, whose sign bit is turned over to put them in order, is comparison of the signed numbers |
| Source.QuotTruncates | src/libmonga/codegen/llvmemit.c:378-380 | division drops the fraction: the remainder is smaller than the divisor and has the sign of the dividend, and the product of quotient and divisor does not pass the dividend |
| Source.QuotUnique | src/libmonga/codegen/llvmemit.c:426-428 | no other quotient and remainder do |
| Source.CompareMeans | src/libmonga/codegen/llvmemit.c:494-522 | of two numbers one is the smaller, by a positive difference, or they are equal; the other comparisons are the negations |
| Ints.BitTable | src/libmonga/codegen/llvmemit.c:414-425 | and, or, exclusive or on the four pairs of bits |
| ReturnPaths.ExitingBlock | src/libmonga/sem.c:895-938 | a block that is marked as exiting on all paths never completes normally, in any run |
| ReturnPaths.ExitingStmt | src/libmonga/sem.c:906-933 | the same for statements: nested blocks, and an `if` with two arms |
| ReturnPaths.BlockJumps | src/libmonga/sem.c:782-890 | a typed block is left by break or continue only inside a loop, and by a return only with a value of the type of the function, or with none if that is void |
| ReturnPaths.BodyReturns | src/libmonga/sem.c:1040-1052 | a typed body with the exit mark never falls off its end |
| Ints.NarrowTwice | src/libmonga/codegen/llvmgen.c:300-330 | a chain of conversions that ends narrower is the narrowest one |
| Ints.WidenThenNarrow | src/libmonga/codegen/llvmgen.c:300-330 | widening and then narrowing gives the number back |
| Ints.TruncatedBits | src/libmonga/codegen/llvmemit.c:241-262 | truncation keeps the pattern of the number modulo the narrower width |
| Ints.ExtendedBits | src/libmonga/codegen/llvmemit.c:241-262 | sign extension keeps the signed number |
| Ints.BitsOfSum | src/libmonga/codegen/llvmemit.c:366-373 | modular addition and subtraction of patterns are those of the numbers |
| Ints.BitsOfProduct | src/libmonga/codegen/llvmemit.c:374-377 | modular multiplication of patterns is that of the numbers |
| Ints.BitsOfBitwise | src/libmonga/codegen/llvmemit.c:414-425 | bitwise operations on patterns are those on two's complement numbers of any size |
| TypeWidths.Ranges | src/libmonga/ast/typedesc.c:108-140 | which numbers a variable of each type holds, in plain numbers |
| TypeWidths.WidthIsOfType | src/libmonga/codegen/llvmemit.c:43-95 | the width that instructions are generated with is that of the LLVM type named in them, and eight times the size of the type |
| TypeWidths.SizeIsOfType | src/libmonga/codegen/llvmemit.c:43-95 | every primitive type takes as many bytes as its LLVM type |
| TypeWidths.NamedTypes | src/libmonga/codegen/llvmemit.c:43-95 | the LLVM type of each primitive type is the one its name promises |
| TypeWidths.ScalarNames | src/libmonga/sem/builtins.c:67-84 | the names of the scalar types stand for the built-in types, and exactly the built-in names are reserved |
| TypeWidths.BuiltinKinds | src/libmonga/sem/types.c:19-75 | which built-in types are integers, floating point, or references |
| Shape.NamesAreFresh | src/libmonga/codegen/llvmgen.c:996-1038 | in the code of any function each label is placed at most once and temporaries are defined in strictly increasing order |
| Shape.FreshStmt | src/libmonga/codegen/llvmgen.c:819-896 | code of a statement places and defines only names between the counters before and after it |
| Shape.FreshTyped | src/libmonga/codegen/llvmgen.c:512-592 | the same for expressions, and the resulting operand is below the counter |
| Shape.FreshCond | src/libmonga/codegen/llvmgen.c:160-181 | the same for conditions, whose target labels are placed by others |
| WellFormed.WellFormedIff | src/libmonga/codegen/llvmgen.c:647-739 | code is well formed (usable instructions, unique labels, increasing temporaries, placed targets, one terminator a block) if and only if the tree has cases, no `if` with one exiting arm, and no open code after an exit where a branch was left out |
| WellFormed.CodeChecks | src/libmonga/codegen/llvmgen.c:647-739 | each check of the code is decided by its own part of the check of the tree: instructions by the cases, targets by the mixed `if`s, terminators by the code after exits |
| WellFormed.MixedBlock | src/libmonga/codegen/llvmgen.c:673-687 | a block with an `if` of which exactly one arm exits has a branch to a label of its own that is placed nowhere |
| WellFormed.OneArmExits | src/libmonga/codegen/llvmgen.c:673-687 | the code of the smallest tree with an `if` with one exiting arm has usable instructions only, and a target that is placed nowhere |
| WellFormed.CodeAfterBreak | src/libmonga/codegen/llvmgen.c:869-892 | the code of the smallest loop with code after break has usable instructions and placed targets only, and runs into the label of the check |
| LlvmGen.LlvmGenContext.CompileFunctionImpl | src/libmonga/codegen/llvmgen.c:996-1038 | appends exactly the code of the function and leaves the loop labels as they were |
| LlvmGen.LlvmGenContext.CompileStatement | src/libmonga/codegen/llvmgen.c:819-896 | appends the code of the statement, adds a local only for a definition, restores the loop labels and tells whether anything after can be reached |
| LlvmGen.LlvmGenContext.CompileBlock | src/libmonga/codegen/llvmgen.c:952-969 | stops behind a statement that returns and pops the locals of the block |
| LlvmGen.LlvmGenContext.CompileIf | src/libmonga/codegen/llvmgen.c:647-707 | the five ways to lay out an `if`, with and without end label |
| LlvmGen.LlvmGenContext.CompileWhile | src/libmonga/codegen/llvmgen.c:709-739 | the inverted loop, with the enclosing loop's labels put back |
| LlvmGen.LlvmGenContext.CompileExp | src/libmonga/codegen/llvmgen.c:519-568 | appends the code of the scalar expression and of its conversion, and returns the operand that holds it |
| LlvmGen.LlvmGenContext.CompileConditional | src/libmonga/codegen/llvmgen.c:519-544 | three labels taken before and one behind each arm, then the phi |
| LlvmGen.LlvmGenContext.CompileCondition | src/libmonga/codegen/llvmgen.c:160-181 | swapped labels for a negated condition |
| LlvmGen.LlvmGenContext.CompileConversion | src/libmonga/codegen/llvmgen.c:377-387 | between scalar types, at most one conversion instruction, with char taken as byte |
| LlvmGen.LlvmGenContext.CompileArgs | src/libmonga/codegen/llvmgen.c:910-924 | the loop over the arguments emits them in order |
| LlvmGen.LlvmGenContext.SearchLocal | src/libmonga/codegen/llvmctx.c:84-96 | the backward scan finds the last local of the name |
| LlvmGen.LlvmGenContext.AddLocal | src/libmonga/codegen/llvmctx.c:62-82 | pushes a local with the next temporary as its slot |
| LlvmGen.LlvmGenContext.ResetBlockContext | src/libmonga/codegen/llvmctx.c:117-126 | counters start over and no local is left |
| Acceptance.AcceptedIff | src/libmonga/sem.c:1155-1267 | the five phases accept exactly the programs with distinct unreserved names, headers that name types, and bodies that can be annotated so that they are typed with every definition in view |
| Acceptance.BodyIff | src/libmonga/sem.c:1005-1052 | a body resolves exactly if it can be typed, with its jumps in loops and a value returned on every path unless it is declared void, and then to the tree that is |
| Acceptance.ProgramIs | src/libmonga/sem.c:1248-1262 | what analysis leaves for a function is the one annotation of its body that is typed |
| Acceptance.OrderIndependent | src/libmonga/sem.c:1176-1266 | permuting definitions, inside a tree or across trees, changes neither acceptance nor what analysis leaves |
| Acceptance.FuncsDeclared | src/libmonga/sem.c:1200-1214 | the function phase succeeds exactly if all names can be added and all headers are right |
| Acceptance.ParamsDeclared | src/libmonga/sem.c:967-991 | parameters are accepted exactly if their names are new and unreserved and their types are types that no earlier parameter hides |
| Acceptance.TypesDescribed | src/libmonga/sem.c:1062-1072 | alias targets resolve exactly if they name types, and are recorded as written |
| TypeAliases.EndsIff | src/libmonga/sem/types.c:9-17 | following aliases ends for every type if and only if no type is reached from itself |
| TypeAliases.GetUnderlyingType | src/libmonga/sem/types.c:9-17 | without circles the loop ends, on a type that is no alias |
| TypeAliases.TypesHaveMeaning | src/libmonga/sem.c:1141-1153 | in an accepted program every type name has an underlying type other than the error type if and only if aliases have no circle |
| TypeAliases.CircleAccepted | src/libmonga/sem.c:1062-1072 | analysis accepts two types that are aliases of each other |
| Annotations.AcceptedFilled | src/libmonga/include/mon_sem.h:27-28 | in an accepted program every annotation of expressions, variables, calls, parameters and results is filled in with a type other than the error type |
| Typing.ResolvedExp | src/libmonga/sem.c:580-754 | an expression that is accepted is the same expression with annotations, and obeys the type system |
| Typing.ResolvedStmt | src/libmonga/sem.c:782-890 | an accepted statement is the same statement with annotations, obeys the type system, has break and continue only inside loops, and is seen by what follows exactly if it is a definition |
| Typing.ResolvedBlock | src/libmonga/sem.c:895-938 | the same for blocks |
| Typing.BlockIff | src/libmonga/sem.c:895-938 | resolution accepts a block exactly if it can be annotated so that it is typed, and leaves the one tree that is |
| Typing.CompleteExp | src/libmonga/sem.c:580-754 | an expression that is typed with some annotations is accepted with these |
| Typing.CompleteStmt | src/libmonga/sem.c:782-890 | a statement that is typed with some annotations is accepted with these |
| Typing.CompleteBlock | src/libmonga/sem.c:895-938 | the same for blocks |
| Typing.VarDefIs | src/libmonga/sem.c:756-780 | a definition of a variable is accepted exactly if its type is one and its name is new in its scope, and is then seen by what follows |
| Typing.IntLitFits | src/libmonga/sem.c:673-682 | an integer literal has type int if and only if it is in the range of int, type long otherwise, and is always in the range of its type |
| Typing.LiteralType | src/libmonga/sem.c:673-682 | the same of the resolved literal, in plain numbers |
| TypeSafety.SafeExp | src/libmonga/sem.c:580-754 | a typed expression that has a meaning never goes wrong and keeps globals at their types |
| TypeSafety.SafeStmts | src/libmonga/sem.c:895-938 | typed statements that have a meaning never go wrong, keep every variable at its type, leave only loops they are in, and return what the function promises |
| TypeSafety.SafeCall | src/libmonga/sem.c:323-388 | a typed call never goes wrong and yields a value of the declared type exactly if the function is not void, also when it leaves the program |
| NamesAgree.NamesReachDefinitions | src/libmonga/codegen/llvmgen.c:602-611 | in every function of an accepted program, at every variable occurrence that is compiled, in the state in which the generator comes to it: the generator finds a local exactly if the definition that analysis recorded is not global, and then the local made for that definition; otherwise the global of that name is that definition |
| NamesAgree.GlobalsAre | src/libmonga/sem.c:1216-1230 | the global definitions are those of the program, under their own names |
| NamesAgree.BlockAgrees | src/libmonga/codegen/llvmgen.c:952-969 | both passes over a block, the statements that are dropped left out, keep every variable on its definition |
| NamesAgree.ExpAgrees | src/libmonga/sem.c:229-256 | every variable of a resolved expression reaches the definition recorded for it |
| NamesAgree.VariableAgrees | src/libmonga/codegen/llvmctx.c:84-96 | where chain and stack are in step, the search by name reaches the very definition that the scope chain gives |
| NamesAgree.StatementKeepsAgreement | src/libmonga/codegen/llvmgen.c:877-884 | a statement adds the same definition to chain and stack, with a new cell, or none to either |
| NamesAgree.BlockStartsAgreed | src/libmonga/codegen/llvmgen.c:952-969 | an empty scope and an unchanged stack are in step at the start of a block |
| NamesAgree.FunctionStartsAgreed | src/libmonga/codegen/llvmgen.c:1009-1018 | parameters are in both, in order, each cell made for its parameter |
| ScopeDiscipline.ScopesOfEveryRun | src/libmonga/sem.c:1155-1267 | whatever is analysed, the global scope after each declaring phase has no name twice and no reserved one, and all scopes inside all bodies have none if and only if no function with a body repeats or reserves a parameter name |
| ScopeDiscipline.GlobalScopesOk | src/libmonga/sem.c:1183-1230 | the same between any two definitions of a phase |
| ScopeDiscipline.BodyScopes | src/libmonga/sem.c:1014-1040 | all scopes during the resolution of a body, nested blocks included, are proper exactly if the parameters are distinct and unreserved |
| ScopeDiscipline.ParamScopeIs | src/libmonga/sem.c:1016-1034 | the scope that parameters are added to by force is proper exactly in that case |
| ScopeDiscipline.AcceptedScopes | src/libmonga/sem.c:984-989 | in an accepted program it always is |
| ScopeDiscipline.ParameterTwice | src/libmonga/sem.c:1017-1034 | a function with two parameters `x` is refused, and its body is resolved in a scope with `x` twice |
| ScopeDiscipline.BlockKeepsScopes | src/libmonga/sem/scope.c:70-85 | resolving a block, accepted or not, leaves proper scopes proper |
| ScopeDiscipline.FuncKeepsScope | src/libmonga/sem.c:940-1003 | a declaration that is refused for its name or a parameter clash leaves the symbols exactly as before |
| ScopeDiscipline.ClashIs | src/libmonga/sem.c:984-989 | a clash is a reserved or repeated parameter name, whatever the types |
| ScopeDiscipline.FuncsKeepScope | src/libmonga/sem.c:1200-1214 | the function phase, whatever fails in it, keeps the global scope proper |
| SemAnalysis.OuterScopesKept | src/libmonga/sem.c:895-938 | a block changes no scope but the current one, whether it is accepted or not |
| SemAnalysis.EmptyScopeExp | src/libmonga/sem.c:804-812 | a scope without symbols changes nothing: the condition of a loop may be resolved in the scope of its body |
| SemAnalysis.SemAnalysisCtx.FindSymbolInScope | src/libmonga/sem/scope.c:26-43 | the scan with recursion up the parents finds what the chain of scopes and the built-in types give |
| SemAnalysis.SemAnalysisCtx.TryRegisterSymbol | src/libmonga/sem.c:127-163 | adds the symbol at the top unless its name is there already or reserved, and otherwise changes nothing |
| SemAnalysis.SemAnalysisCtx.ResolveExpression | src/libmonga/sem.c:580-754 | yields the annotated expression that resolution gives, or refuses, without a change of state |
| SemAnalysis.SemAnalysisCtx.ResolveFunctionCall | src/libmonga/sem.c:323-388 | the loop over arguments accepts exactly the calls with the right number of assignable arguments |
| SemAnalysis.SemAnalysisCtx.ResolveStatement | src/libmonga/sem.c:782-890 | restores the outer scopes and the loop level also when it refuses, and marks nested blocks |
| SemAnalysis.SemAnalysisCtx.ResolveStatements | src/libmonga/sem.c:895-938 | resolves all statements whatever fails, and sets the mark to the declarative one |
| SemAnalysis.SemAnalysisCtx.ResolveVarDefinition | src/libmonga/sem.c:756-780 | a variable of unknown type is registered with the error type and refused |
| SemAnalysis.SemAnalysisCtx.ResolveFunctionDeclaration | src/libmonga/sem.c:940-1003 | registers, checks and on a clash removes the function |
| SemAnalysis.SemAnalysisCtx.ResolveFunctionImpl | src/libmonga/sem.c:1005-1052 | parameters and body in one scope, popped on every path; a value must be returned unless the function is void |
| SemAnalysis.SemAnalysisCtx.AnalyseDefinitions | src/libmonga/sem.c:1155-1267 | the five phases one after the other compute the analysis |
| TypeRules.IsTypeAssignableFrom | src/libmonga/sem/types.c:85-146 | the tests and the walk down two arrays decide exactly the declarative relation |
| TypeRules.ThroughAliases | src/libmonga/sem/types.c:85-90 | assignability depends only on the types under aliases |
| TypeRules.ArraysEquivalent | src/libmonga/sem/types.c:108-136 | on array types it is reflexive, symmetric and transitive |
| TypeRules.TransitiveIff | src/libmonga/sem/types.c:97-102 | away from the error type it is transitive except, exactly, from a string over an array of char to an array of another name for char |
| TypeRules.GapExists | src/libmonga/sem/types.c:97-102 | that exception occurs |
| TypeRules.IsTypeCastableFrom | src/libmonga/sem/types.c:148-172 | primitives can be cast into each other except char and floating point; otherwise casting is assigning |
| TypeRules.AssignableCastable | src/libmonga/sem/types.c:148-172 | what can be assigned can be cast |
| TypeRules.GetBinopResultType | src/libmonga/sem/types.c:202-259 | there is a result type exactly for operands the operator takes, and it is assignable from both |
| TypeRules.ResultAssignable | src/libmonga/sem/types.c:202-259 | the same for every pair of operands, as a law of the relation |
| TypeRules.TypeCanCompare | src/libmonga/sem/types.c:343-368 | two types can be tested for equality exactly if the second can be assigned to the first, and ordered exactly if both are integers |
| TypeRules.OrderedComparable | src/libmonga/sem/types.c:343-368 | what can be ordered can be tested for equality, both ways round |
| TypeRules.GetUnopResultType | src/libmonga/sem/types.c:174-200 | there is a result exactly for numbers, and for bitwise not exactly for integers |
| TypeRules.GetCondExpResultType | src/libmonga/sem/types.c:261-270 | a conditional expression has the type of its first arm exactly if the second can be assigned to it |
| TypeRules.ScalarRulesAgree | src/libmonga/sem/types.c:85-259 | on scalar types the rules that bodies are resolved with are the rules over all types, for assignment, casts and operators |
| TypeRules.ScalarOperatorsAgree | src/libmonga/sem/types.c:174-368 | the same for comparison and unary operators |
| TypeRules.BuiltinScalars | src/libmonga/sem/builtins.c:67-84 | the built-in types alone are a universe with all scalar types |
| RecordLayout.LayoutSound | src/libmonga/sem/types.c:394-422 | every offset is a multiple of its field's size, fields are in order and apart, the alignment is a power of two that divides the size, and so does every field's |
| RecordLayout.LayoutLeast | src/libmonga/sem/types.c:394-422 | every other layout of the same fields in order places each field at least as far and is at least as large |
| RecordLayout.AlignIs | src/libmonga/sem/types.c:371-392 | the alignment is 1, 2, 4 or 8 and a multiple of every field's |
| RecordLayout.GetRecordDescAlign | src/libmonga/sem/types.c:371-392 | there is an alignment exactly if no field has another name for a primitive type, and it is the largest |
| RecordLayout.GetRecordDescSize | src/libmonga/sem/types.c:394-422 | there is a size exactly if moreover no field is void, and it is the least size |
| RecordLayout.GetTypeSize | src/libmonga/sem/types.c:424-437 | the size of the type under aliases, a pointer's for references |
| Vector.MonVector.Push | src/libmonga/vector.c:35-62 | appends one element, reallocating exactly if the array is full |
| Vector.MonVector.Remove | src/libmonga/vector.c:64-93 | takes out one element and keeps the others in order, reallocating exactly below a third |
| Vector.MonVector.RemoveLast | src/libmonga/vector.c:95-97 | takes out the last element |
| Vector.Replay | src/libmonga/vector.c:35-97 | after any run of pushes and removals from any place the vector holds exactly the elements that a sequence would, and has the count, capacity and copying cost of the abstract run |
| Vector.RunsAreCheap | src/libmonga/vector.c:35-97 | over any run of n operations the capacity is 0 or 16 times a power of two and at least the count, and reallocations move at most 3n elements |
| Vector.PushPays | src/libmonga/vector.c:35-62 | a push costs at most three against a potential, and keeps the shape |
| Vector.RemovePays | src/libmonga/vector.c:64-93 | a removal costs at most three against the same potential |
| Vector.NothingUndone | src/libmonga/vector.c:35-97 | the operation after a reallocation does not undo it |
| Vector.OnlyIfNeeded | src/libmonga/vector.c:35-97 | the array is kept exactly if it would still be well shaped |
| Vector.SmallShapes | src/libmonga/vector.c:35-97 | the smallest capacities and how few elements they may hold, in plain numbers |
| Dict.RunsStayWellSized | src/libmonga/dict.c:276-334 | over any run the size is 8 times a power of two, 11 times the count is below 10 times the size, and above the least size at least a third is used |
| Dict.NothingUndone | src/libmonga/dict.c:177-193 | the opposite operation after a resize does not resize back |
| Dict.OnlyIfNeeded | src/libmonga/dict.c:177-193 | the array is kept exactly if it still suits the new count |
| Dict.SmallSizes | src/libmonga/dict.c:177-193 | the smallest sizes and the counts that suit them, in plain numbers |
| Dict.MonDict.Set | src/libmonga/dict.c:276-308 | a new key makes room first; a known key changes nothing |
| Dict.MonDict.RemoveKey | src/libmonga/dict.c:310-334 | a key that is found is counted out and the size follows |
| Strings.EscapeCodes | src/libmonga/strutils.c:23-59 | the code that each letter behind a backslash stands for, as a number |
| Strings.ProcessStringLiteral | src/libmonga/strutils.c:61-95 | stays inside its buffer; the reported length is that of the decoded text, which the buffer holds with a NUL behind it |
| Strings.EveryStringHasALiteral | src/libmonga/strutils.c:23-95 | decoding undoes escaping, for every string |
| Strings.ReadsBackIff | src/libmonga/codegen/llvmemit.c:645-662 | the constant that is written reads back as the string and its NUL if and only if it has no quote and no backslash that what follows turns into an escape |
| Strings.WithoutBackslashes | src/libmonga/codegen/llvmemit.c:645-662 | in particular for strings free of quotes and backslashes |
| Strings.LlvmEmitString | src/libmonga/codegen/llvmemit.c:645-662 | the loop writes that constant and declares one more byte than the string has |
| Strings.EmittedCodes | src/libmonga/codegen/llvmemit.c:650-656 | exactly the control characters are escaped, by a backslash and the two upper-case digits of their code |
| XmlRead.ReadsDump | src/libmonga/ast_xml.c:41-57 | a reader of tokens gives back the module that was dumped |
| XmlRead.DumpDetermines | src/libmonga/ast_xml.c:41-57 | two modules with the same tokens are the same |
| XmlDump.DumpBalanced | src/libmonga/ast_xml.c:41-57 | every closing tag closes the innermost open one and none is left open |
| XmlDump.ReadsForest | src/libmonga/ast_xml.c:245-337 | a reader of tokens gives back the XML trees they were printed from |
| XmlRead.ReadsExp | src/libmonga/ast_xml.c:245-337 | an expression is read back from its XML |
| XmlRead.ReadsStmt | src/libmonga/ast_xml.c:462-576 | a statement is read back from its XML |
| XmlRead.ReadsDef | src/libmonga/ast_xml.c:617-755 | a definition is read back from its XML, also where parts are left out |
| XmlRead.ExpDetermined | src/libmonga/ast_xml.c:245-337 | the XML of an expression determines it |
| XmlRead.StmtDetermined | src/libmonga/ast_xml.c:462-576 | the XML of a statement determines it |
| XmlRead.DefDetermined | src/libmonga/ast_xml.c:617-755 | the XML of a definition determines it |
| XmlPrinter.AstDumpContext.AstDumpXml | src/libmonga/ast_xml.c:41-57 | appends the dump of the module, which is balanced and reads back as the module, and restores the indentation |
| XmlPrinter.AstDumpContext.XmlDumpStatementNode | src/libmonga/ast_xml.c:462-576 | appends the tokens of the statement and restores the indentation |
| XmlPrinter.AstDumpContext.XmlDumpExpNode | src/libmonga/ast_xml.c:245-337 | appends the tokens of the expression and restores the indentation |
| XmlPrinter.AstDumpContext.XmlDumpCondNode | src/libmonga/ast_xml.c:367-428 | the same for conditions, with the tag of a negation |
| XmlPrinter.AstDumpContext.XmlDumpFuncNode | src/libmonga/ast_xml.c:617-643 | the same for functions, leaving out empty parameters and a missing body |

## Left out

- Records, arrays, strings, `new`, `null`, `#` and floating point in the two passes and in the preservation theorem:
  they are modelled where types are compared and laid out, and where trees are printed. A program of the model that
  names one of these types is refused by the model's analysis, not by the compiler.
- Acceptance.AcceptedIff: covers programs whose types are the scalar ones and aliases, for the reason above.
- Acceptance.OrderIndependent: covers the same programs; array and record descriptions add anonymous types as they are
  met.
- Acceptance.TypesDescribed: covers alias descriptions only.
- Annotations.AcceptedFilled: covers the annotations that scalar programs have; types of fields and of array elements
  are not modelled.
- Typing.ResolvedExp: covers scalar expressions.
- SemAnalysis.SemAnalysisCtx.ResolveExpression: covers scalar expressions; `new`, `null`, strings, fields and indexing
  are not modelled.
- SemAnalysis.SemAnalysisCtx.FindSymbolInScope: finds the scalar built-in types; `string`, `float`, `double` and the names
  of the null and error types are reserved in the model, but name no type.
- SemAnalysis.SemAnalysisCtx.AnalyseDefinitions: takes the definitions of all trees as one list, in the order in
  which the phases visit them; which tree an error is charged to is not modelled. It returns on alias circles.
- LlvmGen.LlvmGenContext.CompileExp: covers scalar expressions.
- LlvmGen.LlvmGenContext.CompileConversion: covers conversions between scalar types.
- Simulation.SimCompar: covers comparison of integers and chars.
- Simulation.SimBinary: covers integer arithmetic.
- Simulation.SimConversion: covers conversions between integers and from char.
- Simulation.SimEcho: covers chars and integers.
- Simulation.SimCall: a function of another module gets the arguments and gives a number; it neither calls back nor writes
  to the globals of the program.
- Preservation.EndsAlike: asks for a tree the code generator has cases for; bitwise not, casts of integers to char
  and uses of void values reach assertions in the generator and are checked by `Lowerable`.
- Preservation.RunsForeverAlike: a call to another module needs an answer from a finite list; a run that makes calls for
  ever is covered by all its beginnings, each of which traps on both sides when the answers are used up.
- Pipeline.AcceptedRunsAlike: does not cover a program with an `if` of which exactly one arm exits, whose code
  `WellFormedIff` shows to be ill formed, nor aliases that run in circles.
- NamesAgree.NamesReachDefinitions: asks that no two definitions share the node of a variable, as nodes are addresses.
- WellFormed.WellFormedIff: does not check that a phi names the blocks it is entered from, nor that every use of a
  temporary comes after its definition on all paths; `NeverStuck` excludes the runs that would show either.
- Functions whose result type is an alias of `void`: analysis is modelled as it is, but the generator compares type
  definitions, not underlying types, when it decides whether a call has a result, and that is not modelled.
- Shifts by the width of the type or more, and divisions without a defined result, are traps on both sides.
- The error type lets one mistake pass without a second message; messages, lines and columns are not modelled.
- `usedTypes`, `hasEntryPointFunction` and the other lists that only decide which declarations are written.
- The text of the assembly: type names, the preamble, declarations, and `AddOrGetStringLiteralId`.
- Vector.RunsAreCheap: covers pushes and removals; `Mon_VectorClear` and `Mon_VectorClaim` are not part of the runs.
- Dict.MonDict.Set: whether a key is found is a parameter, because the buckets do not behave as a map: residues can be
  negative, keys are compared by prefix, and the slot is looked up before the buckets move.
- Dict.MonDict.RemoveKey: whether a key is found is a parameter, for the same reason.
- Strings.LlvmEmitString: takes control characters to be those of the locale a program starts in.
- RecordLayout.GetRecordDescSize: sums without wrapping at 32 bits, on a machine with 64-bit pointers.
- Counters, counts and capacities are unbounded; memory never runs out and output never fails.
- Indentation in the dump is counted but not printed; text payloads are atoms, as they are not escaped.
- The lexer, the grammar, the command line, the runtime library and its garbage collector.
