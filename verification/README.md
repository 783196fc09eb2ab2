# Frothy, modelled and proved

Frothy is a small interactive language for microcontrollers. A parser turns one
top-level form at a time into an intermediate representation of literals, nodes and
links. An evaluator with an explicit frame stack runs it on a heap of reference-counted
objects, whose storage two allocators with fixed-size free-span tables hand out. The
overlay, which is what the user has defined on top of a base image, is saved to two
alternating flash slots and restored from them. A host talks to the device over a serial
line, in checksummed frames whose zero bytes are stuffed away.

The project models these parts, each in the form the source has, and proves what they do:

- **Evaluator** (`Interp`, `Fuel`, `Locals`, `Continuation`, `Steps`, `Sim`, `Ownership`,
  `Evaluator`, `Meaning`, `Safety`). `Interp` is a recursive interpreter without frames, arena or
  counts, whose heap only grows. The frame machine refines it for every fuel, keeps every
  reference count exact on every path, and may be entered again from a native. `Meaning`
  says what programs compute without naming anything the two share.
- **Parser** (`Surface`, `Acceptance`, `Translation`, `Parser`, `Scoping`, `Prefixes`,
  `Runs`, `Desugar`, `Written`). What is emitted is a translation of what was written, it is
  emitted exactly for the forms that are acceptable, and running it does what each construct
  is documented to do, part by part and in order.
- **Storage and heap** (`Spans`, `Heap`, `Storage`, `Runtime`). The free-span table is
  exactly the gaps between live spans, every object owns as much storage as it needs and
  shares none, and releasing the last reference frees exactly what is no longer reachable.
- **Snapshots** (`Names`, `Image`, `Collector`, `Encoder`, `Reader`, `Validator`,
  `CodeDecoder`, `Packed`, `Decoder`, `Restore`, `Snapshot`, `RoundTrip`, `Resave`,
  `SaveRestore`, `Damage`, `Store`). Saving and restoring gives the overlay back, saving
  again gives the same bytes, and power loss during a save leaves the previous snapshot.
- **Link** (`Bytes`, `Crc`, `Polynomial`, `Cobs`, `Frame`, `Link`, `Session`, `Replies`,
  `Control`). Frames are read back from any mixture of frames and noise, one damaged byte
  is always noticed, and every request is answered and closed by one idle event.
- **Natives and display** (`Ffi`, `Line`). Installing a table of natives is all or
  nothing, and the integer line algorithm lights the rounded ideal line.

Sums, references and storage are counted with multisets: `Accurate(heap, owed)` says that
every object's count is the number of references in `owed`, which are held outside the
heap, plus those held by other objects.

## Findings

Where the code does less than its documentation or its shape suggests, the project gives
the input and the exact condition.

- A value whose rendering is longer than a frame ends the session without an idle event
  for the request (`Session.LongTextUnanswered`). A request is closed if and only if its
  answer can be sent (`Session.RequestReplyCloses`, `Session.ReactCloses`).
- A record definition bound under a name other than its own is saved and then refused by
  restoring (`SaveRestore.MisnamedIsSaved`). Where there is room, a saved overlay can be restored if and only
  if every slot that holds a definition has its name (`SaveRestore.NamedBindings`,
  `SaveRestore.RestoreSaved`).
- Rolling back an installed native restores a slot exactly if and only if it holds not
  both a value and a primitive and knows both arities or neither (`Ffi.RestoreExact`).
  No other code makes slots of that kind, and from slots without them an installation is
  undone exactly (`Ffi.Installer.InstallTable`).
- The generation number of snapshots does not wrap in a useful way: at the last one, a
  save that runs to its end does not become current (`Store.LastGenerationStays`), and
  below it every complete save does (`Store.StepKeeps`).

## Model

| member | source | states |
|---|---|---|
| Evaluator.Machine.EvalNode | src/frothy_eval.c:848-1088 | For every program, node, locals, heap and fuel, above any evaluations already under way: the frame machine yields the value, locals, heap, slots and error that the recursive interpreter yields, or stops because a limit was met or an interrupt was pending; the ghost set `met` starts empty and only the operations that meet a limit add to it, each only when its own is reached. Unless the run is still going on, the frames and scratch of the evaluations below are what they were, and unless a native reset the runtime every reference is accounted for exactly. |
| Evaluator.Machine.EvalProgram | src/frothy_eval.c:1090-1108 | The same for a whole program on fresh nil locals, with the locals released again whatever happens; a reset inside it counts as success and leaves the new runtime in order. |
| Evaluator.Machine.PushChild | src/frothy_eval.c:246-272 | A child frame is pushed if and only if the stacks of all evaluations under way leave room for it; otherwise the call depth is reported and nothing is pushed. |
| Evaluator.Machine.BufferInit | src/frothy_eval.c:83-109 | An argument buffer is taken if and only if the arena has room for it, behind everything in use. |
| Evaluator.Machine.PollInterrupt | src/frothy_eval.c:41-49 | A run is interrupted exactly when a poll says that an interrupt is pending. |
| Evaluator.Machine.EvalBase | src/frothy_base_image.c:112-159 | Evaluating base forms from inside a native that has reset the runtime leaves the stack of the interrupted evaluation as it was, and nothing but slots holds a reference. |
| Evaluator.Machine.Turn | src/frothy_eval.c:889-1086 | One turn of the loop takes the machine to a state from which the interpreter still predicts the same outcome, with exact ownership and a well-shaped stack, or stops as the interpreter says, or for want of a resource. |
| Evaluator.Machine.TurnCall | src/frothy_eval.c:649-750 | A turn of a call: resolution, argument buffer, argument by argument, then builtin, native, record or code, each as the interpreter has it; the buffer is released on every way out. |
| Evaluator.Machine.Cleanup | src/frothy_eval.c:224-244 | Tearing down every frame releases exactly the references they still hold; after a reset it touches nothing, because no frame is of the current epoch. |
| Evaluator.Machine.WriteSlotOwned | src/frothy_eval.c:375-414 | Binding a slot takes over the reference on success and leaves it with the caller, and everything else unchanged, on failure; the new slots are those of the interpreter. The table is full only if no slot has the name and the limit is reached. |
| Evaluator.Machine.WriteIndexOwned | src/frothy_eval.c:498-515 | A store into cells takes over the reference on success, leaves it with the caller on failure, and changes exactly the place the interpreter changes. |
| Evaluator.Machine.Overwrite | src/frothy_value.c:1947-1974 | Replacing one place of a live object releases what was there and keeps every other object and every other reference. |
| Fuel.EvalMore | src/frothy_eval.c:848-1088 | A run that ends with some fuel ends in the same way with any more, and leaves that much more over. |
| Safety.EvalSafe | src/frothy_eval.c:848-1088 | Evaluating any node of a sound program, for any time, in any world whose objects are sound: nothing is read outside a program's arrays, and every object it leaves is sound again (cells not empty, every record with a definition of as many fields, every code object in range). |
| Safety.RunSafely | src/frothy_eval.c:1090-1108 | On the machine: a run of a sound program never reads out of range, and if it ends by itself the counted heap it leaves satisfies what saving asks of a heap. |
| Safety.ParsedIsSound | src/frothy_parser.c:3021-3154 | What the parser promises of its programs makes them sound, if local numbers fit a machine word. |
| Safety.DecodedIsSound | src/frothy_snapshot_codec.c:1971-2450 | Programs that satisfy what the validator asks of them are sound as well. |
| Meaning.SumMeaning | src/frothy_eval.c:590-592 | Evaluating a call of `+` on two integers yields the number of 30 bits that is congruent to their sum. |
| Meaning.DifferenceMeaning | src/frothy_eval.c:593-595 | The same for the difference, first operand minus second. |
| Meaning.ProductMeaning | src/frothy_eval.c:596-598 | The same for the product. |
| Meaning.OppositeMeaning | src/frothy_eval.c:565-571 | The same for negation. |
| Meaning.QuotientMeaning | src/frothy_eval.c:599-605 | Division: for a divisor other than zero the number of 30 bits congruent to the one quotient that leaves a remainder smaller than the divisor and with the sign of the dividend; otherwise a division by zero. |
| Meaning.RemainderMeaning | src/frothy_eval.c:606-612 | The remainder of that division, which always fits. |
| Meaning.Divisible | src/frothy_eval.c:599-612 | Every pair with a divisor other than zero has such a quotient and remainder. |
| Meaning.OrderMeaning | src/frothy_eval.c:613-624 | The four comparisons are the order of the integers. |
| Meaning.EqualityMeaning | src/frothy_value.c:1255-1299 | Texts are equal if and only if they have the same characters in the same places; any other two values if and only if they are the same value. |
| Meaning.CellsMeaning | src/frothy_eval.c:549-557 | A positive count yields a new object of so many nils and changes nothing else; any other count is out of bounds. |
| Meaning.WriteThenRead | src/frothy_eval.c:341-443 | After a write, by either form of it, reading the slot yields the value and reading any other slot yields what it did before; the write is refused exactly for a slot reference and for a name that must exist and does not. |
| Meaning.WriteMarks | src/frothy_eval.c:352-414 | A written slot is marked as overlay once the base image is up, and records the number of arguments its value takes. |
| Meaning.FallbackRead | src/frothy_eval.c:416-431 | A read with two names is a read of the first if there is such a slot, bound or not, and of the second otherwise. |
| Meaning.ReadCellMeaning | src/frothy_eval.c:445-496 | Reading an element yields it, or is out of bounds exactly outside the object's length. |
| Meaning.WriteCellMeaning | src/frothy_eval.c:463-515 | A store changes that element of that object and nothing else in the world; only scalars, texts and records are kept. |
| Meaning.ReadFieldMeaning | src/frothy_value.c:1926-1945 | Reading a field yields the value at the place of the first field of that name. |
| Meaning.WriteFieldMeaning | src/frothy_value.c:1947-1974 | Writing a field changes that place of that record and nothing else in the world. |
| Meaning.FunctionMeaning | src/frothy_eval.c:649-750 | Calling a function evaluates the callee, checks the number of arguments before evaluating any, evaluates them in order, and runs the body on them followed by nil locals; the caller keeps its own locals. |
| Meaning.RecordMeaning | src/frothy_eval.c:649-750 | Calling a record definition yields a new record whose fields are the arguments in order, if each may be kept. |
| Meaning.NativeMeaning | src/frothy_eval.c:649-750 | A native sees its arguments under the numbers they have in the call. |
| Meaning.WrittenLiteral | src/frothy_parser.c:2447-2480 | A written literal means itself. |
| Meaning.DesignatorMeaning | src/frothy_eval.c:965-969 | A designator is a reference to a slot that exists, bound or not, and is undefined otherwise. |
| Meaning.DefinitionMeaning | src/frothy_parser.c:1709-1809 | Evaluating a parsed record definition yields a new definition with the name and the fields that were written, in that order. |
| Parser.ParseTopLevel | src/frothy_parser.c:3021-3154 | Parses one top-level form. It succeeds on every form that `AcceptsForm` accepts if each array and stack has room for the form's weight, fails with a signature or bounds error only on forms that are not accepted, and never accepts another. The program that comes out means what was written, is well-formed, fits its limits, and uses only locals it has. |
| Parser.Parser.ParseFn | src/frothy_parser.c:1382-1448 | A function is parsed with none of the outer names in reach, numbers its locals from its parameters on, and leaves the enclosing function's numbering and bindings as they were. |
| Parser.Parser.ParseRepeat | src/frothy_parser.c:2264-2386 | `repeat` is emitted as the counting loop it stands for, with the index in a scope of its own and the limit and counter in hidden locals behind the body's. |
| Parser.Parser.ParseCase | src/frothy_parser.c:2126-2229 | `case` is emitted as a chain of comparisons of a hidden local, in clause order, ending in the `else` block or nil. |
| Parser.Parser.ParseCond | src/frothy_parser.c:1988-2073 | `cond` is emitted as a chain of branches in clause order, ending in the `else` block or nil. |
| Parser.Parser.ParseLogic | src/frothy_parser.c:2717-2752 | `and` and `or` are emitted as the short-circuit branches they stand for. |
| Parser.Parser.ParseSet | src/frothy_parser.c:2754-2908 | A place is parsed as a read and written by the write that goes with it; only names, designators, elements and fields are places. |
| Parser.Parser.ParseBlock | src/frothy_parser.c:2962-3006 | A block has a scope of its own: whatever it declares, the bindings and scopes after it are those before it. |
| Parser.Parser.ParseIn | src/frothy_parser.c:1612-1682 | What is inside a prefix block is parsed with the block's name added to the list of names around it, each defined slot is spelled by those names and its own with dots between them, and the outer prefix is active again behind it. |
| Prefixes.NestedDefinition | src/frothy_parser.c:762-775 | A definition of n inside prefix blocks p1, ..., pk writes the slot that consists of p1, a dot, ..., pk, a dot, n, at exactly these positions; a record definition made there carries that name. |
| Prefixes.NestedRead | src/frothy_parser.c:2490-2510 | A name without a dot read inside prefix blocks is looked for under those blocks first and under the name itself second. |
| Prefixes.NestedWrite | src/frothy_parser.c:2754-2908 | The same for a name that is set. |
| Surface.SpellsOnce | src/frothy_parser.c:217-240 | There is only one way to spell a list of names. |
| Parser.Parser.ParseRecord | src/frothy_parser.c:1709-1809 | A record definition links exactly its distinct field names, in order, and is written to its own slot. |
| Parser.Parser.ResolveName | src/frothy_parser.c:1196-1240 | The innermost binding of the current function; else, inside a function, names of enclosing functions are refused; else a slot. |
| Parser.Parser.DeclareLocal | src/frothy_parser.c:1142-1181 | A declaration gets the next number, is visible from then on, and is refused exactly when the innermost scope has the name already or the binding stack is full. |
| Acceptance.DesignatorIsAt | src/frothy_parser.c:2551-2671 | The node of an expression is a slot designator exactly when the expression is one, so the parser's check on nodes is the check on syntax. |
| Scoping.FormLocals | src/frothy_parser.c:3140-3142 | Every local that a parsed form reads or writes is one that the form is counted as using. |
| Locals.EvalKeeps | src/frothy_eval.c:903-926 | Evaluating a node whose locals are all below a bound leaves the locals above it alone; so hidden locals survive the code between their uses. |
| Written.OperatorParsed | src/frothy_parser.c:2694-2715 | Running a parsed operator runs the left operand, then, only if that yields a value, the right one, and applies the operator to the two values in this order. |
| Written.ArithmeticWritten | src/frothy_parser.c:2694-2715 | An operator written between two integers is the mathematical operation on them, in the order written, reduced to 30 bits. |
| Written.ChoiceParsed | src/frothy_parser.c:1921-1939 | Running a parsed `if` runs the condition, which must yield a boolean, and then the block for it and no other; without `else` it may yield nil. |
| Written.LoopParsed | src/frothy_parser.c:1941-1950 | Running a parsed `while` runs the body and then the whole loop again as long as the condition yields true. |
| Written.BlockParsed | src/frothy_parser.c:2962-2994 | Running a parsed block runs its items in the order written, each translated in the scope of those before it, and yields what the last one yields, or nil. |
| Written.HereThenRead | src/frothy_parser.c:2911-2935 | After a declaration the name reads as the value it was declared with, and no other local has changed. |
| Written.SetThenRead | src/frothy_parser.c:2847-2908 | After a local name is set it reads as that value, and no other local has changed. |
| Written.FunctionParsed | src/frothy_parser.c:1382-1448 | Running a parsed function yields a new code object that takes as many arguments as there are parameters, and in its body each parameter reads as the argument at its place. |
| Written.CallParsed | src/frothy_parser.c:2414-2442 | Running a parsed call runs the callee, then the arguments in the order written, and then the body of the function on their values. |
| Written.ElementParsed | src/frothy_parser.c:2551-2671 | Running a parsed element access runs the object, then the position, and yields the element there. |
| Written.ElementSet | src/frothy_parser.c:2847-2908 | Setting an element runs the object, the position and the value, in this order, and changes that element of that object and nothing else. |
| Written.FieldSet | src/frothy_parser.c:2847-2908 | Setting a field runs the record and then the value, and changes that field of that record and nothing else. |
| Desugar.RepeatParsed | src/frothy_parser.c:2264-2386 | Running what `repeat` was parsed into evaluates the count once and then runs the body exactly that many times, counting the index up from zero; it fails where the comparison with a count that is not a number fails. |
| Desugar.RepeatMeaning | src/frothy_parser.c:2300-2386 | The same for any loop of that shape, over runs of any length, with or without an index. |
| Desugar.CaseMeaning | src/frothy_parser.c:2126-2229 | Running a parsed `case` evaluates the scrutinee once and then the first block whose literal equals it. |
| Desugar.CondMeaning | src/frothy_parser.c:1988-2073 | Running a parsed `cond` evaluates conditions in order up to the first that holds, and then its block. |
| Desugar.LogicMeaning | src/frothy_parser.c:2231-2262 | Running a parsed `and` or `or` evaluates the right side only if the left one does not decide, and yields a boolean or a type error. |
| Desugar.UnlessMeaning | src/frothy_parser.c:1964-1977 | Running a parsed `unless` runs the block exactly when the condition is false. |
| Spans.SpanAllocator.Allocate | src/frothy_value.c:431-494 | First fit: a new span lies in the first gap that is long enough, or behind the last span; it fails only if no gap and no tail room is left, and then nothing changes. |
| Spans.SpanAllocator.AddFreeSpan | src/frothy_value.c:375-429 | Inserting, merging with both neighbours and trimming the tail leaves the table equal to the gaps between the spans still live; it never overflows. |
| Spans.SpanAllocator.Release | src/frothy_value.c:496-507 | After giving back a span the live ones are the others, in order, and the table is again exactly their gaps. |
| Spans.SpanAllocator.TakeBack | src/frothy_value.c:496-507 | Giving back the span just allocated restores the live spans, and with them table and extent, to what they were. |
| Spans.TilesExactly | src/frothy_value.c:375-455 | Below the extent every address lies in exactly one of: a live span, a free-table entry. |
| Spans.LiveAndFreeTile | src/frothy_value.c:375-507 | The bytes in use and the bytes in the free-span table add up to the extent. |
| Spans.GapsBound | src/frothy_value.c:375-429 | There are never more gaps than live spans, which bounds the free-span table. |
| Runtime.Runtime.Release | src/frothy_value.c:1319-1342 | Releasing a reference keeps every count exact, frees or leaves alone every object and changes no contents; if references form no circle, afterwards the live objects are exactly the reachable ones and the storage in use is exactly theirs. |
| Runtime.Runtime.ClearLive | src/frothy_value.c:766-817 | Tearing down an object whose count has reached zero releases exactly its children, all the way down, and returns its storage. |
| Runtime.Runtime.Retain | src/frothy_value.c:1301-1317 | One more reference is counted, and nothing else changes. |
| Runtime.Runtime.AppendObject | src/frothy_value.c:728-764 | A new object takes the first free number, or fails with everything unchanged, exactly when every number up to the limit is in use. |
| Runtime.Runtime.AllocLeaf | src/frothy_value.c:1344-1379 | A text, code, native or definition object owns as many bytes as it needs, none of them anyone else's. It takes no more room than its size in whole alignment units, fails only if no object number or not that much room is left, and then nothing has changed and none has leaked. |
| Runtime.Runtime.AllocCells | src/frothy_value.c:1400-1433 | Fresh cells are all nil and the object owns exactly that many cells; length zero is refused; it fails only if no object number or not so many cells are left, and then the span is given back. |
| Runtime.Runtime.AllocRecord | src/frothy_value.c:1831-1899 | A record takes its own reference to its definition and fields and owns four bytes for each field; it fails only for want of a number or of room, and then every reference taken is given back. |
| Runtime.Runtime.StorageInUse | src/frothy_value.c:431-604 | The cells in use are the lengths of all live cells objects together, and the payload in use holds all that the other live objects need. |
| Runtime.Runtime.ObjectsApart | src/frothy_value.c:431-604 | The byte ranges of two live objects never meet, nor do their cells; each lies inside its store and is as large as its object needs. |
| Runtime.Runtime.Reset | src/frothy_value.c:866-911 | Clearing the runtime leaves an empty heap, no storage in use and no reference counted. |
| Collector.Walker.CollectOverlay | src/frothy_snapshot_codec.c:635-663 | The walk over the overlay numbers objects and names as `Collect` does, or is refused with the same error. |
| Collector.CollectOk | src/frothy_snapshot_codec.c:519-663 | A collected overlay is closed: each object comes after everything it refers to, none twice, every name it needs is listed, and every bound object is included. |
| Collector.BlockedIsRefused | src/frothy_snapshot_codec.c:519-623 | If a chain of references from a bound overlay slot runs into a circle, a native or an object that may not be stored where it is, the overlay is refused. |
| Collector.RefusedForCause | src/frothy_snapshot_codec.c:519-623 | If an overlay is refused as not persistable, such a chain exists. |
| Collector.RefusedExactly | src/frothy_snapshot_codec.c:519-663 | Where no name is bad and nothing runs out of room, the overlay is refused as not persistable if and only if such a chain exists, and for no other reason. |
| Collector.Walker.FindOrAdd | src/frothy_snapshot_codec.c:322-348 | A name is listed once, or refused if it is no slot name, too long, or one too many. |
| Encoder.Writer.WritePayload | src/frothy_snapshot_codec.c:1133-1146 | Writing succeeds exactly when every object is of a kind that can be written and the bytes fit, and then the bytes are those of the format. |
| Validator.ValidatePayload | src/frothy_snapshot_codec.c:1479-1616 | Every payload of a well-formed image passes, with the counts of that image. |
| CodeDecoder.MeasureCode | src/frothy_snapshot_codec.c:1732-1969 | Measuring a code object gives exactly the string bytes its program needs. |
| CodeDecoder.DecodeCode | src/frothy_snapshot_codec.c:1971-2450 | Decoding the bytes of a program gives back that program, and fills its block of memory exactly. |
| Decoder.DecodeObjects | src/frothy_snapshot_codec.c:2569-2659 | Decoding an object table allocates exactly the objects it describes, with references resolved, and fails only if there is less room than they need together; whatever the bytes, every reference made is accounted for. |
| Restore.Restorer.BindSlotValue | src/frothy_snapshot_codec.c:2452-2516 | Binding a restored value takes over its reference, or fails and leaves slot, heap and reference as they were; a definition is refused under any name but its own. |
| Restore.Restorer.RestorePayload | src/frothy_snapshot_codec.c:2690-2781 | Whatever the bytes, counts stay exact and no reference leaks. On a well-formed payload the slots are rebound to objects like the ones saved, or a definition's name is refused; it runs out of room only if there is less than the objects and the slots need. |
| Snapshot.SavedReady | src/frothy_snapshot_codec.c:2783-2831 | Every payload that the writer completes is one that the validator accepts. |
| RoundTrip.RestoredOverlay | src/frothy_snapshot_codec.c:2690-2781 | What a restored heap holds is the saved overlay under new object numbers: same names, contents, sharing and arities. |
| Resave.SavedAgain | src/frothy_snapshot_codec.c:2783-2831 | Saving a restored overlay again numbers it in the same way and gives the same bytes. |
| SaveRestore.SavePayload | src/frothy_snapshot_codec.c:2783-2831 | Saving gives the payload of the collected overlay, or fails because it was refused, cannot be written, or does not fit. |
| SaveRestore.RestoreSaved | src/frothy_snapshot_codec.c:2856-2883 | Restoring a saved overlay on the base image it was built on: if free object numbers, payload room, cells and slots cover what was saved, it succeeds if and only if every slot that holds a record definition has the definition's name, and it runs out of room only if they do not; when it succeeds the overlay is the saved one and saves to the same bytes. |
| SaveRestore.NamedBindings | src/frothy_snapshot_codec.c:2452-2516 | The bindings of an image are accepted exactly when every slot that holds a record definition has the definition's name. |
| SaveRestore.MisnamedIsSaved | src/frothy_snapshot_codec.c:2452-2516 | A concrete overlay that is saved and that restoring refuses. |
| Packed.CountStringBytes | src/frothy_ir.c:135-198 | The bytes of all strings of a program, terminators included. |
| Packed.ViewFits | src/frothy_ir.c:1414-1470 | Literals, nodes, links and strings lie one behind the other in the measured block, each array at a multiple of its alignment, and the strings end where the block ends. |
| Packed.ClonePacked | src/frothy_ir.c:1601-1689 | A copy into a block of the measured size never runs out of room and leaves none over, and seen through its own string pointers it is the program. |
| Store.ParseBuiltHeader | src/frothy_snapshot.c:57-125 | A header that was built parses to its length and generation, and carries its payload's checksum. |
| Store.HeaderDamageRejected | src/frothy_snapshot.c:85-125 | A header with one byte changed is rejected. |
| Store.Picks | src/frothy_snapshot.c:140-209 | Of any two slots that stand for a current snapshot the newer valid one is picked for reading and the other one for writing, with the next generation. |
| Store.RestoreCurrent | src/frothy_snapshot.c:244-305 | Restoring reads exactly the current payload, and reports no snapshot if there is none. |
| Store.PayloadDamageRejected | src/frothy_snapshot.c:275-280 | If one byte of the current payload is changed, restoring reports a bad checksum and restores nothing. |
| Store.StepKeeps | src/frothy_snapshot.c:212-242 | A save cut short at any point leaves the previous snapshot current; a complete one makes the new payload current; a wipe leaves none. |
| Store.RunRestores | src/frothy_snapshot.c:212-315 | After any run of saves, torn saves and wipes from erased flash, what is restored is the last payload that was saved completely. |
| Store.LastGenerationStays | src/frothy_snapshot.c:173-242 | At the last generation number a further save does not become current. |
| Store.Flash.Save | src/frothy_snapshot.c:212-242 | The save writes slot by slot what `Saved` says, however far it gets. |
| Store.Flash.Load | src/frothy_snapshot.c:244-305 | The load takes the branches of `Restore`. |
| Store.Flash.WipeAll | src/frothy_snapshot.c:307-315 | A wipe erases both slots. |
| Store.Flash.PickInactive | src/frothy_snapshot.c:173-209 | The slot and generation for the next save. |
| Crc.ComputeCrc32 | src/froth_crc32.c:3-19 | The loop over bytes and bits computes the reflected CRC-32. |
| Polynomial.ChecksumIsRemainder | src/froth_crc32.c:3-19 | The checksum is the complement of the remainder of the data, its bits in order of transmission, followed by 32 zeros and with the first 32 complemented, divided by the generator polynomial with the exponents 32, 26, 23, 22, 16, 12, 11, 10, 8, 7, 5, 4, 2, 1 and 0. |
| Polynomial.RemainderOnce | src/froth_crc32.c:3-19 | A polynomial has only one such remainder. |
| Crc.Crc32ChangeDetected | src/froth_crc32.c:3-19 | Two inputs that differ in one byte have different checksums. |
| Cobs.Encode | src/frothy_control.c:155-198 | Encoding gives the zero-free form of the input, or an overflow exactly when it does not fit. |
| Cobs.Decode | src/frothy_control.c:200-236 | Decoding follows the reference decoder on every input, malformed ones included. |
| Cobs.RoundTrip | src/frothy_control.c:155-236 | Decoding what was encoded gives the input back, for every input that fits. |
| Cobs.EncodedZeroFree | src/frothy_control.c:155-198 | Encoded bytes contain no zero. |
| Frame.BuildFrame | src/frothy_control.c:335-364 | A frame is header, payload and checksum laid out as the format says. |
| Frame.ParseFrame | src/frothy_control.c:287-333 | Parsing takes exactly the branches of `Parse`. |
| Frame.ParseBuilt | src/frothy_control.c:287-364 | Parsing what was built gives header and payload back. |
| Frame.ParsesWhenBuilt | src/frothy_control.c:287-364 | A frame parses to a header and payload if and only if it is what they build to. |
| Frame.AcceptedIsBuilt | src/frothy_control.c:287-333 | Only frames that could have been built are accepted. |
| Frame.DamageRejected | src/frothy_control.c:277-333 | A frame with one byte changed, wherever, is rejected. |
| Link.Port.SendFrame | src/frothy_control.c:375-395 | A frame that fits goes on the wire encoded and delimited; one that does not puts nothing there. |
| Link.Port.ReadFrame | src/frothy_control.c:1162-1210 | Byte by byte reading, with overflow and interrupts, is the reference reader. |
| Link.StreamReads | src/frothy_control.c:1162-1210 | Any sequence of frames and noise on the wire, with interrupts anywhere between bytes, is read back as exactly those frames, in order. |
| Session.ReactCloses | src/frothy_control.c:1058-1160 | Every request addressed to the session is answered by events of its own sequence number that end in one idle, unless its answer cannot be sent; anything else is ignored and changes nothing. |
| Session.RequestReplyCloses | src/frothy_control.c:786-1056 | A reply fails exactly when the code it runs answers with something too long for a frame; otherwise it closes with one idle, and the output events together are what was printed. |
| Replies.RunAnswered | src/frothy_control.c:786-980 | A request that is run tells how the run ended, once and in no other way: a text that fits by one value event that carries its length and its bytes, an error by one error event with its phase, its code and the words of that request, an interruption by one interrupted event. |
| Replies.OutputAnswered | src/frothy_control.c:453-502 | The output events each carry their own length, and what they carry together is what was printed. |
| Replies.WordsAnswered | src/frothy_control.c:613-684 | The names that a client reads out of the value events of a word listing are the listing. |
| Replies.SeeAnswered | src/frothy_control.c:686-761 | Each value event of a shown definition carries the name, the overlay mark, the kind and a piece, and the pieces together are the whole text. |
| Replies.ResetAnswered | src/frothy_control.c:1005-1029 | A reset answers with its value, once. |
| Replies.HelloAnswered | src/frothy_control.c:1066-1087 | The greeting is answered with its value, once, and binds the session. |
| Replies.RefusedAnswered | src/frothy_control.c:763-1056 | A request with a bad payload, or that asks for what cannot be shown, is answered by one error event that says so, and is not run. |
| Replies.OutOfSequence | src/frothy_control.c:1092-1097 | A request out of sequence is answered by one error event and leaves the session as it was. |
| Replies.ArgumentRead | src/frothy_control.c:772-784 | The argument that a request is run with is the string it was sent, up to its first zero byte. |
| Replies.ArgumentRefused | src/frothy_control.c:772-784 | A payload that is too short or too long for the string it announces is refused, with one code for each. |
| Replies.Advances | src/frothy_control.c:1098-1160 | A request in sequence makes the next number the one expected, after the last number the number 1; a detach, and an answer that cannot be sent, leave the session where it was. |
| Bytes.LittleAt | src/frothy_control.c:254-275 | Numbers are laid out with the low byte first. |
| Session.LongTextUnanswered | src/frothy_control.c:515-534 | A concrete request whose answer is too long and that is left without any answer. |
| Session.OneIdleEach | src/frothy_control.c:1058-1253 | Over a whole session each addressed request is answered by exactly one idle, in order. |
| Session.ChunksWhole | src/frothy_control.c:453-502 | Captured output is cut into pieces that fit and that together are the output. |
| Session.ChunksCut | src/frothy_control.c:468-481 | A piece of output that is not the last ends with a newline or fills the buffer, and nothing follows a newline in its piece. |
| Session.WordsChunksFilled | src/frothy_control.c:613-684 | Each chunk of a word listing takes as many names as fit: the next one would not have. |
| Session.WordsChunksWhole | src/frothy_control.c:613-684 | The chunks of a word listing fit into frames, and reading them one after the other gives back the listing. |
| Session.SeeChunksWhole | src/frothy_control.c:686-761 | The chunks of a rendered definition fit and together are its text, and all but the last are full. |
| Control.Controller.Dispatch | src/frothy_control.c:1058-1160 | Dispatching a frame changes the protocol state and sends messages exactly as `React` says. |
| Control.Controller.Run | src/frothy_control.c:1212-1253 | From first byte to the end of the session, what is sent is the service of the requests read from the line. |
| Control.Controller.SendWords | src/frothy_control.c:613-684 | Listing sends exactly the chunks, or nothing if a name is too long. |
| Control.Controller.SendSee | src/frothy_control.c:686-761 | Showing a definition sends exactly its chunks, or nothing if the header leaves no room. |
| Control.Controller.HandleEval | src/frothy_control.c:910-980 | An evaluation request sends output, then the rendered value or the error, then idle: the messages of `EvalReply`, which `Replies.RunAnswered` reads back. |
| Control.Controller.CaptureOutput | src/frothy_control.c:471-485 | A captured byte is held until a newline or a full buffer sends it on. |
| Line.DrawLine | src/frothy_tm1629.c:190-215 | The integer-only loop takes as many steps as the longer axis is long and lights exactly the points of the ideal line, rounded; nothing else changes. |
| Line.LineIsNear | src/frothy_tm1629.c:190-215 | Every such point is within half a pixel of the real line. |
| Line.LineInBox | src/frothy_tm1629.c:190-215 | The points lie between the end points, and the first and last are the end points. |
| Line.DrawRect | src/frothy_tm1629.c:217-238 | Lights exactly the border of the rectangle, and nothing if it is empty. |
| Ffi.Installer.InstallTable | src/frothy_ffi.c:787-867 | Installing succeeds only for a valid table and always for one if no replacement goes wrong and there are numbers for its natives and entries for its new slots. It binds every entry and touches no other slot and no other object; on any failure nothing new is left in the heap, everything in it is as it was, and slots of the usual kind hold what they held, at most with new empty ones behind. |
| Ffi.Installer.Rollback | src/frothy_ffi.c:732-751 | Undoing replacements in reverse order gives each slot what was captured of it and releases every native made. |
| Ffi.Installer.Stage | src/frothy_ffi.c:814-837 | Natives for all entries are made before any slot is touched; whatever was made is owned by the pending list. |
| Ffi.Installer.ReplaceSlot | src/frothy_ffi.c:672-716 | A replacement that fails part way puts back what it captured. |
| Ffi.RestoreExact | src/frothy_ffi.c:597-653 | Putting back a captured slot restores it exactly if and only if the slot holds no primitive beside its value and its arities are both known or both unknown. |
| Ffi.ValidateTable | src/frothy_ffi.c:385-412 | A table is accepted exactly when every entry is well-shaped and no name occurs twice. |

## Left out

Of the evaluator and the heap:

- `malloc` failures of the C library, and the layout of C structures other than sizes and alignments.
- The bodies of natives: what one does is a script of effects (a scalar, an argument, a text, a store into cells, an error, or a reset with base forms), and a native that reports the reset code without having reset anything is not one of them.
- The order of two writes that nothing can observe between: a place is blanked before its old value is released, where the code stores first and releases then.
- The arrays behind frame scratch and argument arena: scratch is one sequence with three places a frame, the arena is its part in use, and writes through stale pointers after a reset have no effect.
- The storage of parsed programs after the run that made their functions, and wrap-around of reference counts and of the reset epoch.
- Clearing a runtime for a reset is modelled as emptying it, without first releasing what the overlay holds.
- High-water marks, test hooks and `inspect` output.
- Safety.RunSafely: says nothing of the heap after a run that a limit or an interrupt has cut short, or that has reset the runtime; `Safety.EvalSafe` covers every run of the interpreter.

- How much room gaps below the extents leave: an allocation is promised to succeed by what is left above them, and to fail only if neither suffices.

Of the parser:

- Cutting characters into tokens, and the choice between forms by looking ahead: the parser is given the tree of the form, with names and texts as the lexer would cut them.
- Parameter lists that are malformed as token sequences, and separators.
- A function body that is one expression is treated as a block with one item, so it takes a scope of its own.
- The text of definitions that is rendered back from code.
- Which of two errors in one form is reported first.
- Lists of nodes are built by recursion where the code pushes to a growing list.
- Safety.ParsedIsSound: asks that local numbers fit a 32-bit word, which the machine's own word guarantees.

Of snapshots:

- Which of several failed checks of the writer is reported, and the usage counters of the codec.
- Storage for a code object is allocated after it has been decoded instead of before, with the same size.
- Torn flash headers that pass the header checksum, and wipes cut short between their two erases.
- Resetting to the base image before a restore, which is the evaluator's `ResetByNative` and `EvalBase`.
- Validator.ValidatePayload: promises acceptance of well-formed payloads; which malformed ones it refuses is not stated. Passing does not imply that restoring succeeds, because integers are checked for their range only when they are decoded (src/frothy_snapshot_codec.c:1681-1683); restoring keeps every count exact whatever the bytes are.
- The number of slots and of symbols as build settings: they are a parameter and a constant.

Of the link, natives and display:

- Failures of the serial line to take bytes, and platform keys other than as events.
- Finding the next frame inside a damaged one: reading resumes at the next delimiter.
- Pins, argument and result checks of foreign functions; the shape check of a table entry is a flag.
- The display's wire protocol, filled rectangles and scrolling; rows are a grid of flags.
