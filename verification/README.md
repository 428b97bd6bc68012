# CubicScript: a verified model of the runtime's core

CubicScript is an embeddable scripting runtime written in C. This Dafny project models its hardest parts
and proves what they are for:

- **Locks** (`Locks`, `SyncQueue`, `ThreadQueues`, `NestedQueues`, `LockProtocol`, `DeadlockFreedom`). Each
  thread collects lock requests in address-sorted levels. The queue is a class proved against a sequence
  specification, and many threads over reader/writer locks are a transition system with blocking locks,
  try-locks and unlocks. Deadlock freedom is proved for threads whose blocking locks keep to address order, and
  that condition is proved to be exactly what a thread needs to be safe among threads that lock one level at a
  time.
- **Hash map** (`HashGroup`, `HashIndex`, `OrderedMap`, `PairMemory`, `CubsMap`). Groups of one-byte tags index
  the pairs, a doubly linked list threads them. The class is proved to be an ordered map: lookups, insertion
  order, iteration both ways, rehashing. Values are bytes behind the key, and the layouts with which every
  reader finds them are determined exactly. `Observe` puts it together for whole runs.
- **From text to result** (`Tokens`, `TokenTables`, `NumLiteral`, `Tokenizer`, `TokenizerRoundTrip`, `TokenEnds`,
  `TokenizerFailures`, `Language`, `Elaboration`, `Parser`, `StackVariables`, `CodeGen`, `Operations`,
  `FrameMachine`, `CompilerCorrect`, `CompilerAccepts`, `Interpreter`, `ScriptCall`, `SourceToResult`, `Samples`).
  Functions over 64-bit integers are tokenized from any layout of their text, parsed, assigned stack slots, emitted
  as bytecode and run. The outcome is proved to be that of direct evaluation: the value, nothing, or the error of a
  checked addition that overflows. Where the tokenizer and the compiler fail an assertion instead is determined
  exactly.
- **Interpreter stack** (`StackSpec`, `Values`, `StackRuns`, `ReturnedValues`, `CallArgs`, `ArgumentMemory`,
  `InterpreterStack`, `CallOperands`, `BytecodeBits`). Frames are chained inside one flat word array, with owners in
  a parallel array. Over whole runs the array is proved to be a stack of frame records that leaks no owner, and
  arguments for C functions are proved to come back as they were pushed.
- **Arithmetic and strings** (`IntMath`, `Utf8`, `CubsString`). Integer power with an exact overflow flag, the
  UTF-8 test beside the definition of UTF-8, and string equality by words and vector chunks.

`Basics` and `Bits` hold what these share. `dafny verify dfyconfig.toml` checks the whole project.

## Reading the model

Where the C code changes things in place there is a class or a method with a loop; its contract ties the new
state to a function of the old one, and the properties are lemmas about that function. Where an assertion of
the C code can fail on input the code is given, the model has a result for it (`None`, `Stuck`, `ok == false`)
instead of a precondition. Floating point numbers are reals: rounding is not modelled.

Some findings about the code, each stated by a lemma or a method below:

- A sync queue level holds at most 8 objects: the buffer grows to 8 entries and then stays there. `AddSyncObject`
  reports exactly where a ninth entry would be stored.
- Locking a level deeper than anything was ever added reads past the array of levels, already the first call of
  a thread that has added nothing (`LockInsideExactly`, `ThirdLock`).
- Address order is not enforced across nested levels. `OrderIsExactlySafety` says what is lost without it.
- `len` of a map counts each insert of a key that is already present once more (`LenCountsEntries`).
- The multiplication overflow test evaluates INT64_MIN / -1 for some operands, which C does not define. The
  model uses the unbounded quotient and says exactly when that happens.
- The literal 9223372036854775808 without a minus sign becomes the smallest integer (`LiteralValue`).
- A literal too long for an integer becomes a float, and where the multiplication overflowed the digit at hand is
  added to the number before it and then counted again; behind the digits of 2^63 the float's sign is wrong
  (`WrongFloats`, `LiteralValue`, `PointLiteralValue`).
- The names of temporaries can meet names of the program (`TemporaryNameClash`); `CompileAcceptsExactly` says for
  which functions. A variable is also known in its own initialiser (`OwnInitialiser`).
- A value overwritten in a map, and the constant iterators in both directions, use the key's size without rounding
  it up to 8 bytes, where a new pair's value lies (`src/primitives/map/map.c:204`, `:613`, `:622`, `:723`, `:732`).
  For a key of 4 bytes, such as a character, they miss it (`FourByteKey`); `ConstViewExactly` and
  `OverwriteExactly` say for which sizes they agree. `cubs_map_eql` and `cubs_map_hash` walk with these iterators.
- A returned value is copied to the caller's slot before the frame is popped, and only its first slot is checked
  to be in the caller's frame. A longer value overwrites the words saved there (`ReturnedTooMuch`,
  `ReturnFitsExactly`).
- The check of a context write adds a slot to a size in bytes, so that slots above the frame can be cleared, those
  of pushed arguments among them (`ClearedArgument`, `ContextKeepsExactly`).
- A text that runs to the end of the source behind a backslash makes an assertion fail where its error is to be
  reported (`OpenEscape`, `RecogniseFails`, `TokenizeFails`).
- The tokenizer's line and column stay at 1: only the index of its position is moved on, so that reported positions
  count from the token alone (`TokenIter.Next`).
- The UTF-8 test accepts half a character if its other half lies behind the slice, characters in more bytes than
  they need, surrogates, and numbers above 0x10FFFF (`NotUtf8`, `AcceptedExactly`).
- Caller and function agree on argument slots only for sizes up to 8 bytes and multiples of 8 (`ConventionAgrees`).
- Call and sync encodings count to 8191; the argument counts are 16 bits wide (`CallRoundTrip`, `SyncRoundTrip`).
- `cubs_string_find` misses an occurrence that starts at the start index and ends the string (`Find`).
- `src/primitives/map/map.c:200` passes the address of the key pointer to the search; the comment above says the
  key is looked up, and the model looks up the key.

## Model

| member | source | states |
|---|---|---|
| `DeadlockFreedom.OrderIsExactlySafety` | src/sync/sync_queue.c:98-99 | a script of locks, try-locks and unlocks whose thread can never be caught in a deadlock, beside any number of threads that lock one level at a time, is exactly one that keeps to address order across its nested levels, after every try-lock outcome that its own locks leave possible: both directions, over all systems and all interleavings |
| `DeadlockFreedom.DeadlockFree` | src/sync/sync_queue.c:31-82 | any number of threads whose blocking locks keep to address order, whatever try-locks they mix in, started empty-handed: after any interleaving some thread can step or all are done and every lock is free; the steps are bounded, and without try-locks all are done after exactly that many |
| `DeadlockFreedom.NeverStuck` | src/sync/sync_queue.c:31-42 | a state that satisfies the invariant and address order always has a thread that can step, unless all are done |
| `DeadlockFreedom.DisorderIsUnsafe` | src/sync/sync_queue.c:98-99 | for any script that leaves address order there are companions that lock one level at a time, and an interleaving, after which nobody can step and not all are done; without try-locks one companion is enough |
| `DeadlockFreedom.Catch` | src/sync/sync_queue.c:44-82 | a thread outside the condition, in whatever phase it is, is led to its first offence by companions that get its try-locks refused where that is needed, and is stuck there |
| `DeadlockFreedom.OrderedIsSafe` | src/sync/sync_queue.c:185-198 | a script in address order, try-locks included, is never stuck, whatever single-level threads run beside it |
| `DeadlockFreedom.NextOrdered` | src/sync/sync_queue.c:44-82 | no step leaves the condition: an entry that is granted was compatible with the locks the thread has, and one that is refused was no shared re-entry |
| `DeadlockFreedom.SingleLevelIsOrdered` | src/sync/sync_queue.c:98-153 | scripts that lock one level at a time always meet the address-order condition, because each level is sorted |
| `DeadlockFreedom.EveryRunEnds` | src/sync/sync_queue.c:185-210 | every step lowers the same measure, so every run ends; without try-locks by one, so that steps taken plus work left is constant |
| `DeadlockFreedom.WaiterHoldsBelow` | src/sync/sync_queue.c:31-42 | a thread that is kept waiting holds only locks below the address it waits for |
| `LockProtocol.RunKeepsInv` | src/sync/sync_queue.c:31-96 | in every state of every interleaving, also inside try-locks that are being refused, the locks held are exactly the sum of what the threads hold, and no lock has a writer beside another holder |
| `LockProtocol.StepKeepsInv` | src/sync/sync_queue.c:31-96 | one step of any thread keeps reader/writer exclusion and the accounting of holds |
| `LockProtocol.NextHolds` | src/sync/sync_queue.c:44-96 | a step changes the lock table by exactly the change in what its thread holds |
| `LockProtocol.LockTakes` | src/sync/sync_queue.c:31-42 | however the steps of a lock call are spread over a run, once it has had them all the thread has one level more, which holds exactly what was asked for, each address once and in the mode first asked for; its other levels and the rest of its script are as before |
| `LockProtocol.UnlockGivesBack` | src/sync/sync_queue.c:84-96 | however the steps of an unlock are spread over a run, once it has had them all the thread has given back the level it locked last and nothing else |
| `LockProtocol.TryTakesAllOrNothing` | src/sync/sync_queue.c:44-82 | every step of a try-lock leads on inside it or to one of its two ends: the level of exactly what was asked for, or nothing taken |
| `LockProtocol.RefusedExactly` | src/sync/sync_queue.c:44-82 | a try-lock turns back at an entry if and only if somebody has that lock and one of the two is a writer |
| `Locks.LockKeepsExclusion` | src/sync/locks.c:111-139 | a lock call that returns keeps reader/writer exclusion |
| `Locks.OnlyReadersShare` | src/sync/locks.c:111-139 | a lock is granted if and only if whoever has it already, and whoever asks, are readers |
| `QueueSpec.InsertRefinesMap` | src/sync/sync_queue.c:128-152 | adding a request adds its address to the level if absent and keeps the mode first asked for if present; the length grows accordingly |
| `QueueSpec.InsertAscending` | src/sync/sync_queue.c:128-152 | addresses stay strictly ascending and nothing but the new request appears |
| `QueueSpec.AscendingDetermined` | src/sync/sync_queue.c:128-152 | two strictly ascending levels with the same address-to-mode map are the same sequence |
| `QueueSpec.PlanExactly` | src/sync/sync_queue.c:98-153 | whatever is added in whatever order, the level is strictly ascending and holds, for each address asked for, exactly the request that asked for it first |
| `ThreadQueues.UnpackPack` | src/sync/sync_queue.c:119-119 | pointer and mode unpack unchanged from the tagged word, for addresses below 2^48 |
| `ThreadQueues.TagBits` | src/sync/sync_queue.c:119-119 | packing is the shift and or of the code, unpacking its mask and shift |
| `ThreadQueues.SyncQueue.AddSyncObject` | src/sync/sync_queue.c:98-153 | the in-place scan, shift and store is the sorted insertion, and fails exactly where a ninth entry would be stored past the buffer, which never grows beyond 8 |
| `ThreadQueues.SyncQueue.ShiftAndStore` | src/sync/sync_queue.c:137-150 | shifting the tail one place up and storing in the gap is splicing the entry in |
| `ThreadQueues.SyncQueue.Acquire` | src/sync/sync_queue.c:31-42 | every queued lock is taken in its mode |
| `ThreadQueues.SyncQueue.TryAcquire` | src/sync/sync_queue.c:44-82 | all or nothing: it succeeds exactly if every queued lock is free in its mode, and then holds them all; otherwise the lock table is as before and the queue is empty |
| `ThreadQueues.SyncQueue.Release` | src/sync/sync_queue.c:84-96 | every lock of the level is given back in the mode it was taken and the level is empty |
| `NestedSpec.BalancedNestRestores` | src/sync/sync_queue.c:185-210 | any nest of adds, locks and unlocks that ends at the level it started at restores the locks held, and leaves the lower levels as they were |
| `NestedSpec.BelowUntouched` | src/sync/sync_queue.c:185-210 | calls that never unlock below a level leave all lower levels untouched |
| `NestedSpec.HeldAfter` | src/sync/sync_queue.c:185-210 | adding changes no holds, locking adds the level, unlocking takes away the most recently locked level |
| `NestedSpec.AddExactly` | src/sync/sync_queue.c:212-228 | adding changes the current level alone, which gains just the request, in its mode, unless its address is there already; levels the array grows by are empty |
| `NestedSpec.LevelsAreAsked` | src/sync/sync_queue.c:185-228 | after any calls of a thread, each level holds exactly what was asked for at it since it was last unlocked or refused, in the modes first asked for |
| `NestedSpec.LockTakesAsked` | src/sync/sync_queue.c:185-189 | a lock takes, beside what is held, exactly what was asked for at its level since it was last unlocked |
| `NestedQueues.ThreadLocalQueues.Unlock` | src/sync/sync_queue.c:200-210 | releases exactly the locks of the most recently locked level |
| `NestedQueues.ThreadLocalQueues.TryLock` | src/sync/sync_queue.c:191-198 | moves to the next level if every lock was free, and changes nothing but emptying the level if not; past the array of levels, where the code reads what is not its own, there is no result |
| `NestedQueues.ThreadLocalQueues.Lock` | src/sync/sync_queue.c:185-189 | takes the locks of the current level and moves to the next one if the level is in the array, and says so if it is not |
| `NestedSpec.LockInsideExactly` | src/sync/sync_queue.c:161-189 | after any calls, a lock stays inside the array of levels if and only if the current level is below the least power of two that has room for the deepest level anything was ever added to; a thread that added nothing has no array |
| `NestedSpec.ThirdLock` | src/sync/sync_queue.c:185-189 | one request and two nested locks, after which a third lock is past the array |
| `NestedQueues.ThreadLocalQueues.Add` | src/sync/sync_queue.c:212-228 | adds to the level the next lock will take, growing the array of levels first |
| `OrderedMap.LookupRefinement` | src/primitives/map/map.c:433-514 | the typed ordered map is a map: after any run of inserts and erases, keys are distinct and lookup agrees with a plain map given the same calls |
| `OrderedMap.InsertionOrder` | src/primitives/map/map.c:479-514 | when every insert is of an absent key, the entries are the surviving insertions in the order they were made |
| `OrderedMap.LenCountsEntries` | src/primitives/map/map.c:488-492 | `len` is the number of entries plus one for every insert that found its key present, so it is the number of entries if and only if there was none |
| `PairMemory.RunView` | src/primitives/map/map.c:192-254 | any run of inserts and erases on the pairs' bytes reads as the typed ordered map, with the same `len`, if sizes need no rounding; and, at the offset of lookups and mutable iterators, with keys of any size if no present key is inserted again |
| `PairMemory.PairBytes` | src/primitives/map/map.c:51-72 | byte by byte, a new value starts at the next multiple of 8 behind the key and leaves the gap as it was, an overwriting one starts behind the key, and where each is read |
| `PairMemory.ConstViewExactly` | src/primitives/map/map.c:613-622 | the constant iterators, which do not round the key's size, give the inserted values for all runs and all memory the allocator may give if and only if the key's size is a multiple of 8 or values have no bytes |
| `PairMemory.OverwriteExactly` | src/primitives/map/map.c:202-207 | lookups and mutable iterators give the last inserted values for all runs, re-inserted keys included, if and only if the key's size is a multiple of 8 or values have no bytes |
| `PairMemory.RunKeys` | src/primitives/map/map.c:433-514 | with any sizes, the keys in memory and the `len` field after any run are those of the typed map |
| `PairMemory.FourByteKey` | src/primitives/map/map.c:592-627 | at a key of 4 bytes and a value of 8: a constant iterator gives the bytes between key and value and half the value, and an overwrite is half visible to a lookup |
| `CubsMap.Map.Find` | src/primitives/map/map.c:433-454 | the grouped search gives the bytes at the rounded offset behind the key of the abstract ordered map |
| `CubsMap.Map.Insert` | src/primitives/map/map.c:192-254 | groups, list, counters and the bytes of the pairs after an insert represent the abstract map after it, whatever rehash it triggers |
| `CubsMap.Map.Erase` | src/primitives/map/map.c:495-514 | groups, list and counters after an erase represent the abstract map after it, and the result says whether the key was there |
| `CubsMap.Map.Unlink` | src/primitives/map/map.c:74-95 | taking a pair out rewires the doubly linked list to the order without it, at the ends as well as in the middle |
| `CubsMap.Map.Append` | src/primitives/map/map.c:214-254 | a new pair is linked behind the last one |
| `CubsMap.Map.Deinit` | src/primitives/map/map.c:370-383 | every pair is freed exactly once |
| `CubsMap.CollectForward` | src/primitives/map/map.c:575-684 | walking forward visits the entries in insertion order, with the value a constant or a mutable iterator reads |
| `CubsMap.CollectBackward` | src/primitives/map/map.c:685-788 | walking backward visits exactly the reverse |
| `CubsMap.ReadOffset` | src/primitives/map/map.c:592-627 | a mutable iterator reads values at the key's size rounded up to a multiple of 8, a constant one at the size as it is |
| `CubsMap.Perform` | src/primitives/map/map.c:192-254 | any calls on a new map, one after the other, leave exactly the state of the run on bytes |
| `CubsMap.Observe` | src/primitives/map/map.c:433-788 | after any calls, a lookup, `len` and both walks answer as the typed map of the same calls: lookups as a plain map, the forward walk as the surviving insertions in order, the backward walk as its reverse, and `len` counts them and every insert of a present key; values are right under the exact layouts, and with any layout for lookups and mutable iterators of new keys |
| `HashGroup.GroupFind` | src/primitives/map/map.c:162-189 | the 32-wide tag masks scanned bit by bit find the first matching live slot, if there is one |
| `HashGroup.GroupAdd` | src/primitives/map/map.c:192-254 | the group gains exactly the new pair; a free slot is always found, so the code behind the search is never reached |
| `HashGroup.FreeSlotExists` | src/primitives/map/map.c:214-254 | fewer used tags than capacity leave a zero tag |
| `HashGroup.GroupEnsureTotalCapacity` | src/primitives/map/map.c:128-159 | growing keeps every live pair with its tag and leaves the holes of erased ones behind |
| `HashGroup.HashBits` | src/util/hash.h:50-67 | group index and tag are the masks, shift and or of the code |
| `HashIndex.Rehash` | src/primitives/map/map.c:289-350 | doubling the groups indexes exactly the same pairs, each in the group its stored hash selects |
| `HashIndex.MoveOne` | src/primitives/map/map.c:325-341 | moving one live pair loses none and duplicates none |
| `CubsMap.EraseIndex` | src/primitives/map/map.c:257-277 | clearing the slot of a pair takes just that pair out of the index |
| `SourceToResult.RunText` | src/compiler/ast_nodes/function_node.c:25-81 | the text of any function in any layout, tokenized, parsed, compiled and run on the real stack, gives the meaning of the function: a returned value is in the cell the caller named for it, its type in the other cell, and no other cell changes; without one no cell does. The caller's frame, slots and owners are as before, and nothing happens where an assertion of the compiler refuses the function |
| `SourceToResult.FunctionTextTokens` | src/compiler/tokenizer.c:452-764 | the text of any function with valid names tokenizes to its tokens, whatever blanks are between them; where tokens cannot run together there may be none |
| `Samples.DeclareMeans` | src/compiler/ast_nodes/variable_declaration.c:15-40 | a declaration without a value gives its variable 0, any other the number of its operand or of its sum, and a sum that is no 64-bit integer ends the call with the overflow |
| `Samples.ReturnMeans` | src/compiler/ast_nodes/return_node.c:25-82 | a return ends the call with its number, nothing or the overflow, whatever follows, and the end of the body with nothing |
| `SourceToResult.SumText` | src/compiler/tokenizer.c:452-764 | the text of a function of two parameters, with one blank between its tokens, is one that `RunText` is about |
| `Samples.SumTokens` | src/compiler/ast_nodes/function_node.c:173-233 | the tokens of a function of two parameters with a declaration and a returned sum |
| `Samples.SumMeaning` | src/compiler/ast_nodes/binary_expression.c:14-47 | what that function returns, for all arguments |
| `Samples.SumCode` | src/compiler/ast_nodes/binary_expression.c:14-47 | the words it is compiled to, its frame and its arguments |
| `ScriptCall.CallScript` | src/interpreter/interpreter.c:862-875 | calling a compiled function with any arguments at any point of any run of the stack returns what the source means, puts the returned value in the cell named for the value and its type in the cell named for the type and changes no other, and restores the caller |
| `CompilerCorrect.CompilationPreservesMeaning` | src/compiler/ast_nodes/function_node.c:55-75 | for every function that uses its names after their declaration and that the compiler accepts, and for all arguments, running the emitted code in a frame with arbitrary garbage behind the arguments gives the value, the empty return or the overflow error of direct evaluation |
| `CompilerCorrect.BodyRun` | src/compiler/ast_nodes/function_node.c:63-75 | the code of a list of statements, anywhere in the code and from any frame that represents the variables, does what the statements do |
| `CompilerCorrect.BinaryRun` | src/compiler/ast_nodes/binary_expression.c:14-47 | loading the operands and adding gives the sum or the overflow error, whichever of the operands are literals |
| `CompilerCorrect.OperandRun` | src/compiler/ast_nodes/binary_expression.c:24-43 | after an operand's code its slot holds its value and all variables keep theirs |
| `CompilerCorrect.DeclareRun` | src/compiler/ast_nodes/variable_declaration.c:15-40 | after a declaration's code the frame represents the variables with the new one bound to its initial value |
| `CompilerCorrect.ReturnRun` | src/compiler/ast_nodes/return_node.c:25-82 | a return's code ends the run with its value, with nothing, or with the overflow error |
| `CompilerCorrect.RepresentsExtend` | src/compiler/stack_variables.c:90-101 | temporaries added later and writes to their slots disturb no variable |
| `CompilerCorrect.BodyExtends` | src/compiler/ast_nodes/expression_value.c:9-55 | building nodes only appends variables and keeps their names distinct |
| `CompilerAccepts.CompileAcceptsExactly` | src/compiler/ast_nodes/variable_declaration.c:99-103 | a function whose variables fit a frame is accepted if and only if every name it declares is free, of its own names and of the temporaries made before, every name it uses is not, and it initialises no variable by a lone name; its frame then has one slot for each name among the parameters, each variable and each temporary |
| `CompilerAccepts.DeclarableExactly` | src/compiler/stack_variables.c:54-88 | which names are taken can be read off the text: a temporary's name with n underscores is taken by a temporary if and only if the temporaries made before and the program's names of that form with fewer underscores are more than n |
| `CompilerAccepts.LiteralKnows` | src/compiler/stack_variables.c:72-88 | a new temporary takes the first underscore count that neither the program nor another temporary has, which keeps that rule |
| `CompilerAccepts.OtherNames` | src/compiler/stack_variables.c:54-70 | a name that no temporary can have is refused only as one of the program's own |
| `CompilerAccepts.TemporaryNameClash` | src/compiler/stack_variables.c:72-88 | a concrete function that declares nothing twice and is refused, because a name of its own meets the temporary of an earlier literal |
| `CompilerAccepts.LoneVariable` | src/compiler/ast_nodes/variable_declaration.c:36-38 | a function that gives a variable the value of another alone is refused |
| `CompilerAccepts.OwnInitialiser` | src/compiler/ast_nodes/variable_declaration.c:99-140 | a function whose variable is used in its own initialiser is accepted, though no scope has it there |
| `CompilerAccepts.ScopedIsKnown` | src/compiler/ast_nodes/expression_value.c:9-55 | where every name is used after its declaration, only declarations are left to check |
| `Language.CompleteKeepsMeaning` | src/compiler/ast_nodes/function_node.c:226-229 | the empty return the parser adds changes no outcome |
| `Elaboration.ElabDistinctParams` | src/compiler/ast_nodes/function_node.c:94-142 | distinct parameters become the first variables in order |
| `Parser.Parser.ParseFunction` | src/compiler/ast_nodes/function_node.c:173-234 | on the tokens of any function the parser builds exactly the nodes and variables of elaboration, or fails an assertion exactly where elaboration does |
| `Parser.Parser.ParseStatements` | src/compiler/ast_nodes/function_node.c:194-230 | the statement loop, with the return it adds |
| `Parser.Parser.ParseParams` | src/compiler/ast_nodes/function_node.c:94-142 | parameters become variables; a repeated name is dropped |
| `Parser.Parser.ParseDeclaration` | src/compiler/ast_nodes/variable_declaration.c:50-140 | a declaration becomes its node, or is refused because its name is taken |
| `Parser.Parser.ParseReturn` | src/compiler/ast_nodes/return_node.c:92-149 | a return becomes its node |
| `Parser.Parser.ParseExpression` | src/compiler/ast_nodes/expression_value.c:57-116 | an operand or a sum becomes its value node, with the temporaries in the order of the code |
| `Parser.Parser.ParseExpressionValue` | src/compiler/ast_nodes/expression_value.c:9-55 | a literal gets a temporary of its own, a name the index of the first variable of that name |
| `Parser.CompileTokens` | src/compiler/ast_nodes/function_node.c:25-81 | parsing and code generation together are the compiler function of the theorem |
| `CodeGen.CompileNodes` | src/compiler/ast_nodes/function_node.c:55-75 | slots are assigned and the nodes emit their code in order into the growable buffer |
| `CodeGen.FunctionBuilder.BuildBinary` | src/compiler/ast_nodes/binary_expression.c:14-47 | the buffer gains the loads of literal operands and the add |
| `CodeGen.FunctionBuilder.BuildNode` | src/compiler/ast_nodes/return_node.c:25-82 | the buffer gains the node's code |
| `CodeGen.FunctionBuilder.AddN` | src/interpreter/function_definition.c:47-67 | growing keeps the code emitted so far and makes room for the new words |
| `CodeGen.FunctionBuilder.PushBytecodeMany` | src/interpreter/function_definition.c:76-81 | the words are appended |
| `StackVariables.ConventionAgrees` | src/program/function_call_args.c:52-54 | a caller puts every argument where the function looks for it if and only if all arguments but the last have from 1 to 8 bytes or a positive multiple of 8 |
| `StackVariables.SlotsPartitionFrame` | src/compiler/stack_variables.c:154-167 | every slot of the frame belongs to exactly one variable |
| `StackVariables.PositionsGrow` | src/compiler/stack_variables.c:154-167 | a variable's slots end before the next one's begin |
| `StackVariables.SlotsApart` | src/compiler/stack_variables.c:154-167 | a variable takes a slot for each whole 8 bytes and at least one where the function looks for it, and as many slots as its bytes need where a caller puts it |
| `StackVariables.FreshNameIsShortest` | src/compiler/stack_variables.c:72-88 | a temporary gets its name with the fewest underscores that make it new, so the renaming loop ends |
| `StackVariables.VariablesArray.PushTemporary` | src/compiler/stack_variables.c:72-88 | the renaming loop ends, appends the renamed variable and keeps names distinct |
| `StackVariables.VariablesArray.Push` | src/compiler/stack_variables.c:54-70 | a taken name is refused with nothing changed, any other is appended |
| `StackVariables.VariablesArray.FindIndex` | src/compiler/stack_variables.c:90-101 | the first variable with the name |
| `StackVariables.Assignment.Push` | src/compiler/stack_variables.c:143-199 | the position is the sum of the slots before it; a known name and a full frame are refused |
| `StackVariables.AssignAll` | src/compiler/stack_variables.c:103-114 | all variables are assigned in order |
| `Operations.FetchPack` | src/interpreter/operations.h:19-60 | every bit field of every layout reads back what was stored, cut to its width, also through a struct that names only the common first fields |
| `Operations.DecodeLoad` | src/interpreter/operations.c:13-19 | an immediate-long load decodes to itself |
| `Operations.DecodeAdd` | src/interpreter/operations.c:352-361 | an add with a destination decodes to itself |
| `Operations.DecodeReturn` | src/interpreter/operations.c:44-48 | a return decodes to itself with its slot cut to 13 bits |
| `CallOperands.CallRoundTrip` | src/interpreter/operations.c:52-87 | the call handler sees the call that was encoded and moves on by the words written if and only if there are fewer than 8192 arguments; otherwise it sees the first of them, by the count's low 13 bits; without a return the return slot may be anything |
| `CallOperands.SyncRoundTrip` | src/interpreter/operations.c:151-205 | the sync handler locks the sources that were encoded, in their modes, and moves on by the words written if and only if there are fewer than 8192; otherwise it sees the first of them, by the count's low 13 bits, and at least one |
| `CallOperands.StoreEntries` | src/interpreter/operations.c:83-86 | 16-bit entries stored one by one lie four to a word and do not disturb each other |
| `BytecodeBits.LoadBits` | src/interpreter/operations.h:38-43 | the word of a long load as a number, and the value behind it |
| `BytecodeBits.ReturnBits` | src/interpreter/operations.h:69-73 | the word of a return as a number |
| `BytecodeBits.AddBits` | src/interpreter/operations.h:383-396 | the word of an add as a number |
| `BytecodeBits.DecodeBits` | src/interpreter/interpreter.c:767-847 | which operation any word is to the handlers, and its operands, by division and remainder |
| `BytecodeBits.CallBits` | src/interpreter/operations.h:99-107 | the head of a call as a number |
| `BytecodeBits.SyncBits` | src/interpreter/operations.h:176-193 | the head of a sync as a number, each source in 16 bits |
| `BytecodeBits.SourceBits` | src/interpreter/operations.h:176-180 | a source to lock as a number: its slot and whether it is for writing |
| `BytecodeBits.EntryBits` | src/interpreter/operations.c:83-86 | stored entries lie four to a word from the lowest bits up |
| `Interpreter.ExecuteFunction` | src/interpreter/interpreter.c:849-875 | the run loop on the real stack gives the result of the frame machine, and afterwards the caller's frame records, slots and contexts are as before |
| `Interpreter.ExecuteOperation` | src/interpreter/interpreter.c:767-847 | one operation changes the current frame as the frame machine does and nothing below it |
| `Interpreter.ExecuteReturn` | src/interpreter/interpreter.c:145-163 | the word at the returned slot is stored in the cell named for the value and its type in the one named for the type, no other cell changes, none does without a value, and the frame is gone, with the caller's record back |
| `Interpreter.ExecuteAdd` | src/interpreter/interpreter.c:697-741 | a checked addition stores the sum, or reports the overflow and changes nothing |
| `Interpreter.CallEnds` | src/interpreter/interpreter.c:862-875 | push, operations and the end of the frame together restore the caller |
| `FrameMachine.RunAdd` | src/interpreter/interpreter.c:697-741 | an encoded add runs to the sum or the overflow error |
| `FrameMachine.RunLoad` | src/interpreter/interpreter.c:48-58 | an encoded load stores its value and moves on by two words |
| `FrameMachine.RunReturn` | src/interpreter/interpreter.c:145-163 | an encoded return ends the run |
| `StackRuns.RunRefines` | src/interpreter/stack.c:25-76 | in every reachable state the flat array is a faithful stack of frame records, which only calls and returns change, and hygiene holds |
| `StackRuns.StepRefines` | src/interpreter/stack.c:25-182 | every operation keeps the invariant and does to the frame records what it would do to a plain stack |
| `StackRuns.NewFrameOwnsOnlyArguments` | src/interpreter/stack.c:25-50 | in every reachable state, the slots of a frame about to be pushed that own anything are exactly the first slots of the pushed arguments, so nothing needs clearing |
| `StackRuns.EndFrameDestroysOnce` | src/interpreter/stack.c:133-148 | ending a frame runs the destructor of each owned value once, in the order of the slots and with its type, never of a borrowed one, and leaves nothing owned above the caller's frame |
| `StackRuns.EndFrameLeavesNone` | src/interpreter/stack.c:52-76 | nothing above the caller's frame owns a value once a frame has ended |
| `StackRuns.GiveBackKeeps` | src/interpreter/interpreter.c:148-158 | copying all bytes of a returned value to the caller's slots keeps all frame records and hygiene, if it fits the caller's frame |
| `StackRuns.ReturnHandsOver` | src/interpreter/interpreter.c:148-163 | after a return to a script caller and the end of the frame, the caller's slots from the destination on hold the bytes the callee had at the returned slot, with its type as an owned value; every other byte, and every other context below the callee, is as before |
| `StackRuns.ArgumentArrives` | src/interpreter/stack.c:171-182 | an argument pushed for a script is, after the call, in the slot of the new frame it was pushed for, byte for byte and owned; below it nothing changes but the four saved words |
| `StackRuns.ContextKeepsExactly` | src/interpreter/stack.c:116-131 | every context write that the code's checks let through keeps the frame records, and it keeps right who owns what if and only if no argument pushed already loses its context |
| `StackRuns.ClearedArgument` | src/interpreter/stack.c:116-131 | a run after which the code's checks pass and a context write clears the context of a pushed argument above the frame |
| `ReturnedValues.ReturnFitsExactly` | src/interpreter/interpreter.c:148-158 | a returned value of any content leaves the words saved below the callee alone if and only if it fits the caller's frame; the caller's length and return destinations survive if and only if it is at most one word too long |
| `ReturnedValues.ReturnedTooMuch` | src/interpreter/interpreter.c:148-158 | a run after which the code's checks pass and a returned value of 32 bytes replaces the caller's frame length by its third word |
| `StackSpec.PushRefines` | src/interpreter/stack.c:25-50 | a push adds one record and keeps all others |
| `StackSpec.PushSaves` | src/interpreter/stack.c:25-50 | a new frame saves instruction pointer, length and return destinations of the frame below in this order, or zeroes at the bottom, and writes nothing else |
| `StackSpec.ContextWritten` | src/interpreter/stack.c:116-131 | a context write stores the type in its slot, clears the slots behind it that the value covers whole, and changes no other |
| `StackSpec.PopRefines` | src/interpreter/stack.c:52-76 | a pop removes the last record and gives the caller's base, length and return destinations back exactly |
| `StackSpec.SlotWriteKeepsFrames` | src/interpreter/stack.c:88-92 | value writes in the current frame alter no frame record |
| `StackSpec.DestroyedOnce` | src/interpreter/stack.c:133-148 | unwinding destroys each owning slot once and no other |
| `InterpreterStack.StackState.PushFrame` | src/interpreter/stack.c:25-50 | the stores of the four reserved words are the push of the value model |
| `InterpreterStack.StackState.PopFrame` | src/interpreter/stack.c:52-76 | the loads of the reserved words are the pop of the value model |
| `InterpreterStack.StackState.UnwindFrame` | src/interpreter/stack.c:133-148 | the loop over the frame's slots calls the destructors and clears the owning contexts |
| `InterpreterStack.StackState.SetContextAt` | src/interpreter/stack.c:116-131 | the context is stored and those of the value's further slots are cleared |
| `InterpreterStack.StackState.PushScriptArg` | src/interpreter/stack.c:171-182 | the argument's bytes and context go where the next frame will have its slot |
| `InterpreterStack.StackState.PushCArg` | src/interpreter/stack.c:184-209 | the tracker is moved up, the value stored and the tracker brought up to date |
| `InterpreterStack.StackState.TakeArg` | src/interpreter/stack.c:217-235 | the value is copied out by the tracker's offset and its context cleared |
| `InterpreterStack.CallBuilder.PushArg` | src/program/function_call_args.c:46-54 | the running offset and count always match the arguments in place: those before and the new one, in the order pushed |
| `InterpreterStack.CallBuilder.EnterCall` | src/program/function_call_args.c:99-111 | the pushed frame has its slots where the arguments were put, all of them in place with their tracker |
| `CallArgs.ArgumentRoundTrip` | src/interpreter/stack.c:184-235 | any values of non-zero size pushed for a C function come back from it unchanged, taken in any order, each once |
| `CallArgs.PushKeepsAll` | src/interpreter/stack.c:184-209 | no earlier argument is overwritten when the tracker moves up, and the tracker holds every offset |
| `CallArgs.TakeGivesPushed` | src/interpreter/stack.c:217-235 | taking an argument gives what was pushed and leaves the others takeable |
| `CallArgs.CallKeepsArgs` | src/program/function_call_args.c:99-111 | pushing the callee's frame leaves the arguments and their tracker in place |
| `ArgumentMemory.ArgumentLayout` | src/interpreter/stack.c:184-209 | after pushing any arguments each lies behind those before it, byte for byte and owned, and its offset is in its 16 bits of the tracker |
| `ArgumentMemory.OffsetSteps` | src/program/function_call_args.c:52-54 | each argument moves the next one by the slots its bytes need |
| `ArgumentMemory.TrackerLayout` | src/interpreter/stack.c:184-209 | behind the arguments is a word with their number; nothing below them has changed |
| `Values.CopyRoundTrip` | src/interpreter/stack.c:196-196 | a value whose size is no multiple of 8 survives the copy in and out |
| `Values.CopiedBytes` | src/interpreter/stack.c:196-196 | copying a value from slots to slots copies the bytes of its size |
| `Values.OtherBytes` | src/interpreter/stack.c:196-196 | and changes no other byte |
| `IntMath.IPowOverflow` | src/util/math.c:49-80 | the output is the power wrapped to 64 bits and the flag is set if and only if the power is no int64, for every base and exponent; it also says exactly when the undefined quotient INT64_MIN / -1 is evaluated |
| `IntMath.WouldMulOverflowExact` | src/util/math.c:28-47 | the quotient tests answer exactly whether the product leaves the 64-bit range |
| `IntMath.WouldAddOverflow` | src/util/math.c:3-15 | exactly when the sum leaves the range |
| `IntMath.WouldSubOverflow` | src/util/math.c:17-26 | exactly when the difference leaves the range |
| `IntMath.UndefinedQuotientExact` | src/util/math.c:41-43 | when the multiplication test evaluates INT64_MIN / -1, which C does not define |
| `NumLiteral.LiteralValue` | src/compiler/tokenizer.c:129-204 | a digit run is an int literal if and only if its number is at most 2^63, and has exactly its value if and only if it is negated or below 2^63; unsigned 2^63 becomes the smallest int64; above 2^63 it is a float, exact if and only if a condition on its digits holds |
| `NumLiteral.PointLiteralValue` | src/compiler/tokenizer.c:205-252 | a literal with a point is a float whose value, rounding aside, is the number it spells if and only if its whole part is below 2^63, is 2^63 behind a minus sign, or was turned into a float that is right |
| `NumLiteral.NumberEndsExactly` | src/compiler/tokenizer.c:176-199 | in front of any character that is neither a digit nor a point, digits are a number if and only if it is one of the six blanks, a semicolon, a comma or NUL; otherwise the error is reported at it |
| `NumLiteral.DecimalsEndExactly` | src/compiler/tokenizer.c:223-245 | the same behind a point, where a second point is an error of its own |
| `NumLiteral.WholeBecame` | src/compiler/tokenizer.c:146-184 | what the digits before the point have become: the number, the smallest int64, or a float, and when that float is exact |
| `NumLiteral.WrongFloats` | src/compiler/tokenizer.c:150-195 | concrete digit runs whose float is not their number: a digit counted twice, and a sign turned |
| `NumLiteral.TryParse` | src/compiler/tokenizer.c:129-253 | the accumulating loops over digits and decimals, with their switch to floats, find the token, value, length and errors of the specification |
| `TokenizerRoundTrip.TokenizeSpelling` | src/compiler/tokenizer.c:452-764 | keywords, operators, symbols, names, string texts and int literals in any admissible sequence, spelled with any blanks between them, and none where they cannot run together, tokenize to that sequence |
| `TokenizerRoundTrip.DividedIsLaidOut` | src/compiler/tokenizer.c:176-223 | no blank is needed before a semicolon or a comma |
| `TokenizerRoundTrip.RecogniseToken` | src/compiler/tokenizer.c:452-736 | every admissible token is recognised from its spelling, `&`, `*` and `-` by the token before them |
| `TokenizerRoundTrip.EarlierSymbols` | src/compiler/tokenizer.c:573-683 | no entry tried earlier matches the spelling of a later one |
| `TokenizerRoundTrip.OnlyItself` | src/compiler/tokenizer.c:55-78 | a word is matched by no keyword but itself |
| `TokenEnds.WordEndsExactly` | src/compiler/tokenizer.c:55-78 | each of the 31 keywords is read in front of a blank, a comma, a point, a semicolon, a parenthesis or the end, and nowhere else |
| `TokenEnds.SymbolReads` | src/compiler/tokenizer.c:573-683 | each of the 34 operators and symbols is read where no `=`, `<` or `>` follows |
| `TokenEnds.SignsReadExactly` | src/compiler/tokenizer.c:684-735 | what `&`, `*` and `-` are behind each kind of token |
| `TokenEnds.NameEndsExactly` | src/compiler/tokenizer.c:292-317 | a name ends where no letter, digit or underscore follows, and nowhere else |
| `TokenEnds.NamesExactly` | src/compiler/tokenizer.c:292-317 | the names a program can have, character by character |
| `TokenEnds.TextReads` | src/compiler/tokenizer.c:255-290 | a text goes up to the next quote without a backslash before it, and escapes are kept as written |
| `TokenEnds.TextNeverEnds` | src/compiler/tokenizer.c:255-290 | a text without its closing quote is reported at its last character |
| `TokenEnds.NothingReads` | src/compiler/tokenizer.c:319-362 | no token begins with any other character |
| `TokenEnds.BlanksSkipped` | src/compiler/tokenizer.c:20-24 | exactly the six blanks are skipped |
| `TokenEnds.PositionMoved` | src/compiler/tokenizer.c:33-53 | index, line and column of a position moved on over any characters |
| `TokenEnds.ErrorReported` | src/compiler/tokenizer.c:33-53 | index, line and column an error is reported at |
| `Tokenizer.RecogniseFits` | src/compiler/tokenizer.c:452-736 | a token found takes at least one character and stays within the source |
| `Tokenizer.TokenIter.Next` | src/compiler/tokenizer.c:738-764 | the index moves strictly forward past a token found, and stays where it is if none is; line and column never move; the error callback gets the error and its position, and a step without a result is a failed assertion, exactly where `RecogniseFails` says |
| `Tokenizer.TokenizeAll` | src/compiler/tokenizer.c:753-764 | taking token after token ends and gives the specified sequence |
| `TokenizerFailures.RecogniseFails` | src/compiler/tokenizer.c:255-347 | the scan of a token fails an assertion if and only if it starts with a single quote, or with a double quote whose text has no closing quote and ends in a backslash that is not escaped |
| `TokenizerFailures.FromTextFails` | src/compiler/tokenizer.c:255-283 | the same for texts alone: their error is reported past the end of the source |
| `TokenizerFailures.TokenizeFails` | src/compiler/tokenizer.c:753-764 | a source gives no token sequence if and only if its tokens lead to such a place, and where |
| `TokenizerFailures.PlainSourceTokenizes` | src/compiler/tokenizer.c:753-764 | every source without a single quote that does not end in a backslash gives its tokens |
| `TokenizerFailures.OpenEscape` | src/compiler/tokenizer.c:33-53 | the source of a quote, a letter and a backslash fails |
| `CubsString.Equal` | src/primitives/string/string.c:200-224 | four words or whole vector chunks compare equal if and only if the contents are equal |
| `CubsString.EqualSlice` | src/primitives/string/string.c:226-242 | equal if and only if the content is the slice |
| `CubsString.CompareBuffers` | src/util/simd.c:143-193 | comparing padded buffers by whole chunks, or byte by byte, is comparing contents |
| `CubsString.CompareSlice` | src/util/simd.c:195-255 | comparing chunks and then the last bytes is comparing the slice |
| `CubsString.ChunksInside` | src/util/simd.c:151-154 | whole chunks never read past the padded allocation |
| `CubsString.FourWords` | src/primitives/string/string.c:202-210 | a small string agrees in all four words with exactly the strings of the same content, large ones included |
| `CubsString.Init` | src/primitives/string/string.c:154-163 | a new string with the content of the slice if and only if the UTF-8 test accepts it, and none otherwise |
| `CubsString.InitUnchecked` | src/primitives/string/string.c:123-152 | up to 23 bytes are kept inline, more in a buffer of the next multiple of 32; the content and the zeroes behind it, for any slice |
| `Utf8.AcceptedExactly` | src/util/utf8.c:4-55 | every UTF-8 text without a 0, as section 3 of RFC 3629 defines it, is accepted; a text that is accepted is UTF-8 if and only if its last character is not cut, no character has a shorter form, and none is a surrogate or above 0x10FFFF |
| `Utf8.IsValid` | src/util/utf8.c:4-55 | the scan by leading bits gives that answer, and where the last character is cut it depends on the bytes behind the slice |
| `Utf8.AcceptedByBits` | src/util/utf8.c:4-55 | one step of the test by the leading bits of the first byte and of the bytes behind it |
| `Utf8.CharacterOctets` | src/util/utf8.c:4-55 | the octets of one character are those of the table in section 4 of RFC 3629 |
| `Utf8.NotUtf8` | src/util/utf8.c:24-29 | half a character is accepted where its other half lies behind the slice, and so are a letter in two bytes, a surrogate and a number above 0x10FFFF |
| `CubsString.Concat` | src/primitives/string/string.c:93-121 | the content is the concatenation, with its zeroes, inline or in a buffer by its length |
| `CubsString.Clone` | src/primitives/string/string.c:174-187 | the same string, with one more owner of a shared buffer |
| `CubsString.Deinit` | src/primitives/string/string.c:67-73 | one owner less, and freed by the last |
| `CubsString.FreedOnceByLastOwner` | src/primitives/string/string.c:67-73 | whatever clones and deinits happen to a buffer, it is freed at most once, by the deinit of the last owner, and it is freed if and only if the deinits are one more than the clones |
| `CubsString.Find` | src/primitives/string/string.c:269-280 | the result is the first occurrence from the start index on if and only if no occurrence starts there and ends the string, and the text searched for is not empty |

## Left out

- ThreadQueues.SyncQueue.AddSyncObject: where a ninth distinct object is added the C code stores past its buffer; the model stops there with `ok == false`, because what the store overwrites has no meaning in it.
- ThreadQueues.SyncQueue.Acquire: a call that returns at once; waiting for a lock another thread holds is a step of `LockProtocol` that is not yet possible.
- LockProtocol.RunKeepsInv: the levels of the transition system have no 8-entry limit, and a level without requests is locked at any depth, also where `NestedSpec.LockInsideExactly` says that the array ends.
- DeadlockFreedom.OrderIsExactlySafety: a lock held shared is granted shared again while a writer waits, so shared re-entry counts as safe; Windows SRW locks and locks that prefer writers do not promise that. The companions lock one level at a time; safety among companions that nest as well is `DeadlockFree`, under the condition that all keep to address order.
- CubsMap.Map.Insert: hashing is an uninterpreted function of the key with equal keys giving equal hashes; the load factor kept in `available` is not claimed to be right after a rehash.
- CubsMap.CollectForward: a value is its bytes, and a key a typed value with an equality, because no write reaches the key's bytes; destructors of overwritten and erased values are not modelled.
- CubsString.Equal: bytes, not characters; comparison by `strcmp`, hashing and substrings are not part of this model.
- CubsString.Deinit: the calls of all owners come one after the other; counts changed by several threads at once are not part of this model.
- Utf8.IsValid: three bytes behind the slice can be read, whatever they are; that the code may have no right to read them is not modelled.
- CompilerCorrect.CompilationPreservesMeaning: functions over integers with the forms the compiler accepts so far, where every name is used after its declaration is complete; what is accepted beyond that is `CompileAcceptsExactly`. Calls, nested expressions, other operators and types are refused by its assertions.
- Interpreter.ExecuteOperation: the operations the compiler emits, with the debug-only check that both operands of an add have the same type left out; moves, clones, jumps, references, members, comparisons and the C side of calls are `Stuck` here.
- Interpreter.ExecuteFunction: bytecode of those operations.
- Interpreter.ExecuteAdd: integer operands and the form with a destination.
- Interpreter.ExecuteReturn: integers, whose memory at the C caller is one cell for the value and one for the type; returning into a slot of a script caller is `StackRuns.ReturnHandsOver`.
- Parser.Parser.ParseFunction: stated for the tokens of functions; the parser also accepts some other token sequences, such as any one token in place of the semicolon after a sum, and it takes its tokens from a list instead of from the tokenizer one at a time.
- NumLiteral.TryParse: a float's value is the real number of the same operations, without rounding.
- TokenizerRoundTrip.TokenizeSpelling: float literals are left out, since a number can be written in many ways; what they are read as is `NumLiteral.PointLiteralValue`.
- StackRuns.RunRefines: nothing in the code checks that a frame, a pushed argument or a cleared context is inside the array, that a returned value fits the caller's frame, or that a context write spares the pushed arguments; the operations require it, and `ReturnFitsExactly` and `ContextKeepsExactly` say what happens otherwise.
- CallArgs.ArgumentRoundTrip: a value's words hold zeroes above its last byte; argument sizes are positive, and no other call is started between the pushes and the call.
- InterpreterStack.StackState.PushFrame: the two fixed arrays of the stack are sequences that every write reassigns.
- Sets (`src/primitives/set/set.c`) have the structure of the map without values, and the string-keyed map (`src/program/string_slice_pointer_map.h`) its insertion and rehash; neither is modelled again.
- Map and set clones, which store the first key's hash for every entry, are not modelled.
- Operating system locks, atomic operations, allocation failure, panics, hash mixing and seeds, rounding of floating point numbers, the C++ and Zig bindings and the build are not part of this model.
