# Verification of the ThLang code generator and of the JSON code beside it

Two groups of modules, in Dafny 4.11. `dafny verify dfyconfig.toml` checks all of them.

**The ThLang code generator** (`src/codegen.cpp`, `include/thlang/codegen.h`). `ThlangAst` and
`ThlangSemantics` give the language a meaning: 32-bit numbers that wrap, truths, stores. `ThlangIr` is a
machine for the instructions the generator emits. `ThlangCodeGen` is the generator branch by branch as
functions, `ThlangCodeGenContext` the same as an object that changes its blocks, insertion point and scope
stack in place. The other `Thlang` modules prove that the generated blocks compute what the source means
(`CompilerCorrect`, both directions, any number of loop rounds), that they never go wrong, that the graph is
well formed, and exactly where the generator falls short (`ThlangLimits`,
`ThlangDeadCode`).

**The JSON and option code** (`include/rapidjson`, `include/CLI/Validators.hpp`). `Utf8` and `Utf16` are the
codecs. `JsonWriterSpec`, `JsonWriter` and `JsonPrettyWriter` are the writers; `JsonReader` is the recursive
parser of `reader.h`, which serves as the reference the output is read back with; `JsonDocument` builds
values from events, also from whatever the parser sends (`JsonParsed`), and makes deep copies; `JsonEquality` is
`operator==`; `JsonLanguage` and `JsonValidity` tell which events a writer takes to the end and which output is JSON,
`JsonStrip` and `JsonLayout` what PrettyWriter puts beyond what Writer does. `PointerText`, `JsonPointer`,
`PointerIndex`, `PointerRoundTrip`, `PointerSyntax` and `PointerLimits` are JSON Pointer as text,
`PointerTree`, `PointerUpdate` and `PointerEffects` its effect on a tree. `PoolSpec` and `PoolAllocator` are the memory pool, `FileStreams` the buffered streams,
`CheckedMultiply` the overflow test of option values.

Each class is proved against functions on its state (`ensures State() == ...`), and what the source promises is
proved about those functions.

## What the code does otherwise than one would expect

Each of these is a lemma, with the exact condition where there is one.

- An `else if` gives a broken graph: the grammar (src/parser.y:148-154) puts the second if alone into the else
  block, code generation of an if is always null (src/codegen.cpp:355), and a null branch counts as failure
  (src/codegen.cpp:342-344), so the block behind the outer if is jumped to but never inserted unless the first
  branch returns (`IfCompleteIff`, `ElseIfIncomplete`).
- `<` is emitted as an unsigned comparison (src/codegen.cpp:156-157), the other orders as signed ones
  (`LessIsSignedIff`).
- Loop conditions are cut to their lowest bit, if conditions compared with zero (`LoopReadsConditionIff`).
- A loop returns from the function in its exit block, so statements behind it never take effect
  (`NothingAfterFinal`); what is generated for them spoils the graph unless nothing is (`NothingAfterFinalIff`).
- A for whose body holds an if has a block without an end (`ForCompleteIff`).
- `Writer::EndObject` accepts an object whose last name has no value (`DanglingName`); nothing else but the
  events of a value completes a writer (`WriterLanguage`), and what it has put is then JSON (`CompleteIsJson`).
- `GenericValue::operator==` compares integers by their 64 bits (`EqualNumbers`) and, against its documentation
  (document.h:848), may find objects with repeated names equal, even in one direction only (`RepeatedNames`):
  exactly when members of one name agree (`RuleOnTheLeft`), or the names are repeated on the right
  (`RuleOnTheRight`, `EqualBack`).
- The overflow test of JSON Pointer indices (pointer.h:909) misses some numbers beyond 32 bits
  (`OverflowUnnoticed`, `OverflowByOneDigit`).
- `Append(name, length)` stores no index (pointer.h:229-232), so the pointer differs from the one parsed from its
  text when the name is an index (`AppendedComesBackIff`).
- Decoding a percent-encoded character that the end of the source cuts off reads the byte behind the source
  (pointer.h:992), as does testing an empty source for a number sign (`ReadsBehind`, `BehindEndsInTriplet`).
- After `Create` with a `-` token on an array, `Get` does not find the element created (`GetOfCreate`).

## Conventions of the model

- The supported ThLang fragment is the predicate `ThlangFunctionCorrect.Supported`: 32-bit integer variables;
  declarations with an initialiser that does not use the name declared; assignments and other expression
  statements; division by a literal other than 0 and -1 and shifts by a literal from 0 to 31; ifs whose
  branches the generator completes; returns last in their block; and a return or one loop at the end of the
  body. Conditions are any typed expression. Declarations in branches and loop bodies are supported when they
  hide no outer variable.
- Where the generator dereferences null after reporting an undefined name (src/codegen.cpp:72-77), or has no
  return statement (src/codegen.cpp:100-102), the functional form returns null; no supported program gets there.
  The same holds for the undetermined value of an empty block (src/codegen.cpp:32).
- The machine is stuck at a division by 0 or of the least number by -1 and at a shift by more than 31, for which LLVM
  gives no result.
- `IRBuilder` folds constants in the source; the model emits the instruction, so that `ThlangDeadCode` counts an
  operation on literals as emitted.
- The scope a function pushes is never popped (src/codegen.cpp:502); the theorems therefore hold for arbitrary
  scopes below it and any number of the next temporary.
- Shifts and masks of unsigned numbers are written with `/`, `%` and `+`. Addresses and sizes are natural
  numbers, the alignment is 8 and a chunk header has 24 bytes, as on a 64-bit machine.
- The assertions of RapidJSON are preconditions of the methods; the state machines give `None` where one fails.
- A pointer passed to `Realloc` is live and comes with the size it was asked for, and the base allocator answers
  with aligned memory that overlaps no chunk; its answers are parameters. `fread` and `fwrite` are short only at
  the end of the file and never.

## Model

| member | source | states |
|---|---|---|
| ThlangFunctionCorrect.CompilerCorrect | src/codegen.cpp:480-521 | For every supported function, all 32-bit arguments and any symbol tables left below it: the source has result r (a value, or nothing with a final store) exactly when the generated blocks, run from the entry block, come to an end that agrees with r; a loop may go round any number of times, and if the source loop never ends neither does the code |
| ThlangFunctionCorrect.NeverStuck | src/codegen.cpp:470-478 | No run of generated code reads an undefined temporary or empty cell, runs off a block or jumps to a missing one |
| ThlangFunctionCorrect.NothingAfterFinal | src/codegen.cpp:417-419 | Statements written behind a loop or return that ends a supported body change no result of the machine: the exit block of the loop already returns |
| ThlangDeadCode.NothingAfterFinalIff | src/codegen.cpp:414-421 | With such statements the graph is well formed exactly when each of them makes the generator emit nothing and create no block: a literal, or something that fails before it emits; anything else goes behind a terminator or leaves an empty block |
| ThlangDeadCode.IdleOrSpoilt | src/codegen.cpp:31-44 | Any list of statements either leaves the builder as it was or spoils a terminated block for good |
| ThlangDeadCode.QuietIff | src/codegen.cpp:67-198 | When an expression gets a value, and when nothing is emitted for it |
| ThlangDeadCode.RetestHasValue | src/codegen.cpp:447-459 | A condition that has a value in front of a while has one at its bottom too, where nothing tests for null |
| ThlangFunctionCorrect.ContainedCorrect | src/codegen.cpp:480-521 | Compiler correctness for any larger code of which the function is a part |
| ThlangFunctionCorrect.FunctionRuns | src/codegen.cpp:480-521 | Forward direction: if the source ends, so does the code, with the same result |
| ThlangFunctionCorrect.FunctionStops | src/codegen.cpp:480-521 | Backward direction: if the code stops at all, the source ends |
| ThlangFunctionCorrect.LoopEnds | src/codegen.cpp:424-468 | A loop whose source ends in a store reaches the return of its exit block with memory that represents the store |
| ThlangFunctionCorrect.LoopStops | src/codegen.cpp:424-468 | If the code of a loop stops, the source loop ends within as many rounds |
| ThlangFunctionCorrect.ParamsRun | src/codegen.cpp:503-518 | The parameter slots are filled from the arguments, left to right |
| ThlangExprCorrect.OperatorCorrect | src/codegen.cpp:111-167 | The instruction chosen for each operator computes on bit patterns what the operator means on 32-bit numbers and truths, division and shifts included wherever LLVM gives them a value |
| ThlangExprCorrect.OperatorDefinedIff | src/codegen.cpp:117-155 | On numbers the instruction chosen has a value exactly where the operator has a meaning: no division by 0 or of the least number by -1, no shift by more than 31 |
| ThlangExprCorrect.ExprCorrect | src/codegen.cpp:88-198 | From any frame that represents the store, the code of a typed expression runs to its end, changes no memory and leaves the value in the operand returned |
| ThlangStmtCorrect.StmtCorrect | src/codegen.cpp:262-356 | The code of a supported statement leads to a frame that represents the store after it, or returns its value |
| ThlangStmtCorrect.VarCorrect | src/codegen.cpp:284-296 | A declaration binds the name first, then stores the value of its initialiser |
| ThlangStmtCorrect.DeclareThenAssign | src/codegen.cpp:284-296 | A declaration without an initialiser, with an assignment to the name behind it, generates just what the declaration with that initialiser does |
| ThlangStmtCorrect.VoidReturn | src/codegen.cpp:470-478 | A return without a value, or whose expression cannot be generated, ends a run with no result |
| ThlangStmtCorrect.IfCorrect | src/codegen.cpp:299-356 | An if runs the branch its condition selects and ends behind the if, variables declared in the branch forgotten |
| ThlangStmtCorrect.BlockCorrect | src/codegen.cpp:31-44 | The statements of a block run one after the other up to a return |
| ThlangLoopCorrect.TestRuns | src/codegen.cpp:389-399 | The test of a loop goes to the body or to the exit as the lowest bit of its condition says, whatever the condition is |
| ThlangLoopCorrect.WhileEnters | src/codegen.cpp:432-445 | The first test of a while, before the loop |
| ThlangLoopCorrect.WhileRound | src/codegen.cpp:447-459 | One round of a while, its condition evaluated again at the bottom, is one round of the source |
| ThlangLoopCorrect.ForEnters | src/codegen.cpp:376-399 | First part and first test of a for |
| ThlangLoopCorrect.ForRound | src/codegen.cpp:401-413 | Body, increment and next test of a for are one round of the source |
| TwosComplement.AddBits | src/codegen.cpp:117 | Addition modulo 2 to the 32 is addition of the signed numbers, wrapped |
| TwosComplement.SubBits | src/codegen.cpp:125 | The same for subtraction |
| TwosComplement.MulBits | src/codegen.cpp:134 | The same for multiplication |
| TwosComplement.DivBits | src/codegen.cpp:143 | The quotient of the signed readings, as a pattern, is that of the signed numbers |
| TwosComplement.ShlBits | src/codegen.cpp:153 | Shifting a pattern to the left multiplies the signed number, wrapped |
| TwosComplement.ShrBits | src/codegen.cpp:155 | Shifting to the right with copies of the sign bit divides it by the power of two, rounding down |
| TruncatedDivision.QuotientIs | src/codegen.cpp:143 | Such a quotient leaves a rest smaller than the divisor and with the sign of the dividend |
| ThlangLoopGraph.GraphWellFormed | src/codegen.cpp:480-521 | In the code of a supported function every inserted block ends in a terminator, no terminator stands anywhere else, and every branch target is inserted |
| ThlangLoopGraph.UsesDefinedOnPaths | src/codegen.cpp:67-198 | On every path from the entry block, whatever an instruction uses is defined before it |
| ThlangLoopGraph.EntryDefined | src/codegen.cpp:67-198 | The temporaries the invariant ascribes to the start of a block are defined on every path to it |
| ThlangLoopGraph.FunctionGraph | src/codegen.cpp:480-521 | The graph invariant holds of every supported function |
| ThlangLoopGraph.WhileGraph | src/codegen.cpp:424-468 | A while keeps the graph invariant and leaves no block unfinished |
| ThlangLoopGraph.ForGraph | src/codegen.cpp:358-422 | A for keeps it |
| ThlangGraph.StmtGraph | src/codegen.cpp:262-356 | A statement keeps it; only the block it ends in stays open |
| ThlangGraph.IfGraph | src/codegen.cpp:299-356 | An if keeps it |
| ThlangGraph.BlockGraph | src/codegen.cpp:31-44 | A block keeps it |
| ThlangLimits.IfCompleteIff | src/codegen.cpp:328-355 | The graph of an if is complete exactly when no branch ends in an if, save for an else branch behind a then branch that returns: codegen of an if is always null and a null branch counts as failure |
| ThlangLimits.ElseIfIncomplete | src/parser.y:148-154 | An else-if leaves the merge block of the outer if uninserted, unless the first branch returns |
| ThlangLimits.ElseIfExample | src/parser.y:148-154 | In a function of two parameters, an else-if over ordinary assignments leaves out a block that is jumped to |
| ThlangLimits.LessIsSignedIff | src/codegen.cpp:156-157 | The unsigned comparison emitted for < is the order of the signed numbers exactly when both operands have the same sign |
| ThlangLimits.LoopReadsConditionIff | src/codegen.cpp:394-398 | A loop reads a condition as an if does exactly when it is not a nonzero even number |
| ThlangLimits.EvenConditionStops | src/codegen.cpp:437-441 | Generated code leaves a while whose condition is a nonzero even number at once, with the store that reached it, where an if would take its branch |
| ThlangLimits.ForCompleteIff | src/codegen.cpp:401-413 | The graph of a for whose body is supported has a terminator in every block exactly when the body has no if in it: the jump to the increment is looked up in the first block of the body |
| ThlangScopes.StmtScopes | include/thlang/codegen.h:74-102 | Generating a statement keeps the depth of the scope stack, changes only the top scope, and there only names the statement declares |
| ThlangScopes.LoopScopes | src/codegen.cpp:401-407 | A loop leaves the whole scope stack as it found it |
| ThlangScopes.BlockScopes | src/codegen.cpp:31-44 | The same for a block |
| ThlangScopes.FunctionScopes | src/codegen.cpp:499-521 | A function, whatever is in it, leaves one scope more on the stack and the scopes below as they were |
| ThlangScopes.SameLookup | include/thlang/codegen.h:74-81 | A lookup of any other name finds the same innermost binding before and after |
| ThlangStructure.StmtGrew | src/codegen.cpp:262-478 | A statement appends to the block it starts in and to blocks of its own, and changes no other block |
| ThlangStructure.BlockGrew | src/codegen.cpp:31-44 | The same for a block |
| ThlangShape.StmtShape | src/codegen.cpp:262-478 | Whether a supported statement returns a value or null, and whether the block it ends in is open |
| ThlangShape.IfShape | src/codegen.cpp:299-356 | Blocks, order of insertion and insertion point of an if |
| ThlangShape.BlockShape | src/codegen.cpp:31-44 | A supported block that ends in a value is not null |
| ThlangCodeGenContext.CodeGenContext.GetValueOf | include/thlang/codegen.h:74-81 | The innermost binding of a name |
| ThlangCodeGenContext.CodeGenContext.SetValueOf | include/thlang/codegen.h:83-86 | Binds a name in the top scope |
| ThlangCodeGenContext.CodeGenContext.Push | include/thlang/codegen.h:93-97 | A new scope; the insertion point moves to its block |
| ThlangCodeGenContext.CodeGenContext.Pop | include/thlang/codegen.h:98-102 | Removes the top scope only |
| ThlangCodeGenContext.CodeGenContext.Expression | src/codegen.cpp:67-198 | State and operand after the emitted instructions, or null, in every branch |
| ThlangCodeGenContext.CodeGenContext.Operation | src/codegen.cpp:111-172 | The same for the operator chain |
| ThlangCodeGenContext.CodeGenContext.Statement | src/codegen.cpp:470-478 | The same for statements, returns included |
| ThlangCodeGenContext.CodeGenContext.Variable | src/codegen.cpp:284-296 | The same for declarations |
| ThlangCodeGenContext.CodeGenContext.If | src/codegen.cpp:299-356 | The same for if, including the early returns |
| ThlangCodeGenContext.CodeGenContext.For | src/codegen.cpp:358-422 | The same for for; whether the body still needs its jump is looked up in the first body block |
| ThlangCodeGenContext.CodeGenContext.While | src/codegen.cpp:424-468 | The same for while; the condition is generated twice |
| ThlangCodeGenContext.CodeGenContext.Block | src/codegen.cpp:31-44 | The same for blocks |
| ThlangCodeGenContext.CodeGenContext.FunctionBody | src/codegen.cpp:499-521 | The same for the entry block, the parameters and the body; the scope pushed stays |
| ThlangCodeGenContext.Compile | src/codegen.cpp:480-521 | Compiles a function; what the code computes follows |
| Utf8.ScanIsGrammar | include/rapidjson/encodings.h:146-176 | On any bytes Decode succeeds exactly when they start with a UTF8-char of section 4 of RFC 3629, takes that character and returns its number |
| Utf8.DecodeOfEncode | include/rapidjson/encodings.h:102-121 | Decoding what Encode put for a scalar value returns that value and leaves the rest |
| Utf8.EncodeOfDecode | include/rapidjson/encodings.h:146-176 | What Decode accepts is a scalar value, and encoding it gives the bytes taken |
| Utf8.EncodedIsChar | include/rapidjson/encodings.h:102-121 | Encode puts the octets of the table in section 3 of RFC 3629 |
| Utf8.CharIsEncoded | include/rapidjson/encodings.h:102-121 | Every UTF8-char is what Encode puts for its number |
| Utf8.SizeIsForced | include/rapidjson/encodings.h:204-219 | The lead byte alone decides the length |
| Utf8.BytesTaken | include/rapidjson/encodings.h:146-176 | Decode takes as many bytes as the lead byte tells, or one where it leads nothing, or all there are, also when it fails |
| Utf8.Masks | include/rapidjson/encodings.h:204-219 | The class masks 0x70, 0x50, 0x10, 0x20 and 0x60 stand for intervals of continuation bytes |
| Utf8.DecodeAllOfEncodeAll | include/rapidjson/encodings.h:102-121 | Decoding the encoding of any list of scalar values returns the list |
| Utf8.EncodeAllOfDecodeAll | include/rapidjson/encodings.h:146-176 | Re-encoding an accepted text returns the text |
| Utf8.DecodeAllIsGrammar | include/rapidjson/encodings.h:146-176 | The accepted texts are exactly the UTF8-octets of section 4 of RFC 3629 |
| Utf8.Encode | include/rapidjson/encodings.h:102-121 | Puts exactly those bytes |
| Utf8.Decode | include/rapidjson/encodings.h:146-176 | Verdict, code point and what is left of the stream, also where a failing sequence is taken to its end |
| Utf8.Validate | include/rapidjson/encodings.h:179-202 | The same verdict and the same bytes taken as Decode, and exactly those bytes copied |
| Utf16.DecodeOfEncode | include/rapidjson/encodings.h:276-290 | UTF-16: decoding an encoded scalar value returns it (section 2.1 and 2.2 of RFC 2781) |
| Utf16.PairOf | include/rapidjson/encodings.h:284-288 | A code point behind the first plane becomes a high surrogate with its upper ten bits and a low one with the other ten |
| Utf16.EncodeOfDecode | include/rapidjson/encodings.h:307-322 | UTF-16: what Decode accepts is a scalar value whose encoding was taken |
| Utf16.UnitsTaken | include/rapidjson/encodings.h:307-322 | Decode takes two units from a high surrogate on and else one, and fails exactly at a surrogate that is not the high one of a pair |
| Utf16.TakeAllOfPutAll | include/rapidjson/encodings.h:351-403 | Units put in either byte order are taken back unchanged |
| Utf16.UnitBytes | include/rapidjson/encodings.h:366-370 | The first byte of a unit is the low one in UTF16LE and the high one in UTF16BE |
| Utf16.TranscodingIsIdentity | include/rapidjson/encodings.h:658-667 | A text can be transcoded to UTF-16 exactly when it is well-formed UTF-8, and through the bytes of either order it comes back unchanged |
| Utf16.ToUtf16IsEncode | include/rapidjson/encodings.h:658-667 | The assertions of UTF16::Encode never fail behind UTF8::Decode |
| Utf16.Encode | include/rapidjson/encodings.h:276-290 | Puts one unit or a surrogate pair |
| Utf16.Decode | include/rapidjson/encodings.h:307-322 | Verdict, code point and what is left |
| Utf16.TranscodeToUtf16 | include/rapidjson/encodings.h:658-667 | One code point from UTF-8 to UTF-16; the preconditions of Encode always hold |
| Utf16.TranscodeToUtf8 | include/rapidjson/encodings.h:658-667 | One code point from UTF-16 to UTF-8 |
| ByteStreams.InputStream.Take | include/rapidjson/memorystream.h:45-46 | The next byte, or the terminator for ever at the end |
| JsonRoundTrip.ParseOfWrite | include/rapidjson/writer.h:345-455 | For every value, either writer, any white space around: parsing the text Accept made a fresh writer put sends exactly the events of the value |
| JsonRoundTrip.ReadValueOfText | include/rapidjson/document.h:1768-1805 | The text of a value is read up to its end and no further, whatever follows that does not carry a number on |
| JsonRoundTrip.ReadStringOfEscapes | include/rapidjson/writer.h:345-417 | Every byte string comes back from its escaped form |
| JsonRoundTrip.ReadNumberOfText | include/rapidjson/writer.h:281-315 | Every 64-bit integer comes back from its text, as the narrowest event the parser sends |
| JsonWriterSpec.AcceptWrites | include/rapidjson/document.h:1768-1805 | Accept, sent to a writer that can take a value, trips no assertion, appends exactly the text of the value and leaves the level stack with one value more counted |
| JsonWriterSpec.AcceptElements | include/rapidjson/document.h:1786-1792 | The same for the elements of an array |
| JsonWriterSpec.AcceptMembers | include/rapidjson/document.h:1774-1784 | The same for the members of an object |
| JsonRuns.CompleteOnlyAtTheEnd | include/rapidjson/writer.h:134-136 | IsComplete is true after the last event of a value and after no earlier one; no assertion fails before it |
| JsonRuns.LevelsStayOpen | include/rapidjson/writer.h:204-232 | Within the events of a value the surrounding levels stay open |
| JsonLanguage.WriterLanguage | include/rapidjson/writer.h:437-455 | Of all event sequences, a writer takes to completion, closing no object right after a name, exactly those that are the events of a value; the output is then the text of that value |
| JsonValidity.CompleteIsJson | include/rapidjson/writer.h:134-218 | What a complete Writer or PrettyWriter has put is read back exactly when no object was closed right after a member name; so that is the only way to a text that is not JSON |
| JsonValidity.UnpairedIsUnread | include/rapidjson/writer.h:212-218 | Once an object has been closed after a name, no parser of JSON accepts the output, whatever is put before or behind |
| JsonValidity.OpenRuns | include/rapidjson/writer.h:437-455 | The text of a value under construction, at any depth |
| JsonValidity.DanglingName | include/rapidjson/writer.h:212-218 | EndObject lets an object be closed after a name: the writer completes, and the reader takes the text for no JSON |
| JsonLanguage.RunBuilds | include/rapidjson/writer.h:172-232 | Every step without a failing assertion adds its event to a value under construction that the level stack counts |
| JsonLanguage.ValueIsPaired | include/rapidjson/document.h:1768-1805 | The events of a value never close an object after a name |
| JsonStrip.PrettyIsCompact | include/rapidjson/prettywriter.h:111-237 | For every event sequence, both array options and any indentation: PrettyWriter trips an assertion exactly when Writer does, is complete exactly when Writer is, and without white space outside strings its text is Writer's text |
| JsonStrip.PrettyTextIsCompactText | include/rapidjson/prettywriter.h:190-237 | The same for the text of a value |
| JsonLayout.PrettyIsLaidOut | include/rapidjson/prettywriter.h:111-237 | For every event sequence and format, what PrettyWriter has put is what Writer has put with the white space of one rule put in, which goes by the two bytes and the brackets open there: a line break and the indentation of the levels open before every name, every element unless arrays are on single lines, and every bracket that closes such a level that is not empty; one space behind a colon and behind a comma on a single line; nothing else |
| JsonLayout.TextIsLaidOut | include/rapidjson/prettywriter.h:190-237 | The same for the text of a value |
| JsonText.EscapeTable | include/rapidjson/writer.h:345-417 | The bytes WriteString escapes, and by which letter: the short escapes of section 7 of RFC 8259, four hexadecimal digits for the other control characters, every other byte itself |
| JsonText.HexDigits | include/rapidjson/writer.h:346 | The digits are the upper-case ones |
| JsonText.TokenTable | include/rapidjson/writer.h:264-280 | The texts of null, true and false and the brackets and separators |
| JsonValue.WidthTable | include/rapidjson/document.h:1798-1805 | Which of the four integer events Accept sends |
| JsonStrip.QuotedStays | include/rapidjson/writer.h:345-417 | No escape sequence ends a string literal or loses a byte to the removal of white space |
| JsonWriter.Writer.IsComplete | include/rapidjson/writer.h:134-136 | The flag and the empty stack |
| JsonWriter.Writer.Prefix | include/rapidjson/writer.h:437-455 | Separator, count and root flag; the assertions of the source are the precondition |
| JsonWriter.Writer.WriteString | include/rapidjson/writer.h:345-417 | The quoted and escaped string |
| JsonWriter.Writer.WriteNumber | include/rapidjson/writer.h:281-315 | The decimal text, digits from the routines of itoa.h |
| JsonWriter.Writer.Null | include/rapidjson/writer.h:172 | One null event of the machine |
| JsonWriter.Writer.Bool | include/rapidjson/writer.h:173 | One truth |
| JsonWriter.Writer.Number | include/rapidjson/writer.h:174-177 | One integer event |
| JsonWriter.Writer.String | include/rapidjson/writer.h:192-196 | One string |
| JsonWriter.Writer.Key | include/rapidjson/writer.h:210 | One member name |
| JsonWriter.Writer.StartObject | include/rapidjson/writer.h:204-208 | Opens an object level |
| JsonWriter.Writer.EndObject | include/rapidjson/writer.h:212-218 | Closes it |
| JsonWriter.Writer.StartArray | include/rapidjson/writer.h:220-224 | Opens an array level |
| JsonWriter.Writer.EndArray | include/rapidjson/writer.h:226-232 | Closes it |
| JsonWriter.Writer.Accept | include/rapidjson/document.h:1768-1805 | The recursion over a value with a writer as handler sends all its events and writes its text |
| JsonPrettyWriter.PrettyWriter.PrettyPrefix | include/rapidjson/prettywriter.h:190-232 | Separator, line break, indentation, count and root flag |
| JsonPrettyWriter.PrettyWriter.WriteIndent | include/rapidjson/prettywriter.h:234-237 | As many indentation characters as levels times the count |
| JsonPrettyWriter.PrettyWriter.SetIndent | include/rapidjson/prettywriter.h:65-70 | The new indentation |
| JsonPrettyWriter.PrettyWriter.SetFormatOptions | include/rapidjson/prettywriter.h:75-78 | The new array option |
| JsonPrettyWriter.PrettyWriter.Null | include/rapidjson/prettywriter.h:85 | One null event of the machine |
| JsonPrettyWriter.PrettyWriter.Bool | include/rapidjson/prettywriter.h:86 | One truth |
| JsonPrettyWriter.PrettyWriter.Number | include/rapidjson/prettywriter.h:87-90 | One integer event |
| JsonPrettyWriter.PrettyWriter.String | include/rapidjson/prettywriter.h:99-103 | One string |
| JsonPrettyWriter.PrettyWriter.Key | include/rapidjson/prettywriter.h:117 | One member name |
| JsonPrettyWriter.PrettyWriter.StartObject | include/rapidjson/prettywriter.h:111-115 | Opens an object level |
| JsonPrettyWriter.PrettyWriter.EndObject | include/rapidjson/prettywriter.h:125-141 | Closes it, on a line of its own unless it is empty |
| JsonPrettyWriter.PrettyWriter.StartArray | include/rapidjson/prettywriter.h:143-147 | Opens an array level |
| JsonPrettyWriter.PrettyWriter.EndArray | include/rapidjson/prettywriter.h:149-165 | Closes it |
| JsonItoa.U32toa | include/rapidjson/internal/itoa.h:39-111 | The two-digits-at-a-time routine prints the plain decimal text of every 32-bit number |
| JsonItoa.U64toa | include/rapidjson/internal/itoa.h:123-289 | The same for every 64-bit number |
| JsonItoa.I64toa | include/rapidjson/internal/itoa.h:291-300 | Sign and magnitude, the least number included |
| JsonItoa.DecimalOfPadded | include/rapidjson/internal/itoa.h:42-77 | The digits without leading zeros are the decimal text |
| JsonNumber.SendInteger | include/rapidjson/reader.h:1150-1229 | The overflow tests of the integer part are exact: 32-bit, 64-bit or double as the magnitude says |
| JsonNumber.Accumulate | include/rapidjson/reader.h:1161-1184 | Each accumulating loop stops exactly when the number exceeds its limit |
| JsonDocument.FeedingBuilds | include/rapidjson/document.h:2333-2373 | Feeding the events of a value to the handler, on whatever stack, pushes that value and changes nothing below |
| JsonDocument.DocumentOfText | include/rapidjson/document.h:2333-2373 | Writing a value in any format and parsing the text into a document gives the value back |
| JsonParsed.ParsedAgain | include/rapidjson/document.h:2333-2373 | Any text the parser accepts makes a document of exactly one value, and no assertion of the handler fails on the way; written again in any format and parsed again, the same value comes back |
| JsonParsed.ValueFeeds | include/rapidjson/reader.h:589-698 | What the parser sends for any accepted value, at any depth, pushes one value on the stack of the handler and changes nothing below |
| JsonDocument.Document.Accept | include/rapidjson/document.h:1768-1805 | Accept with a document as handler pushes the value |
| JsonDocument.Document.EndObject | include/rapidjson/document.h:2361-2365 | Pops pairs of name and value into the object below them |
| JsonDocument.Document.EndArray | include/rapidjson/document.h:2369-2373 | Pops the elements into the array below them |
| JsonDocument.Document.StartObject | include/rapidjson/document.h:2357 | Pushes an empty object |
| JsonDocument.Document.StartArray | include/rapidjson/document.h:2367 | Pushes an empty array |
| JsonDocument.DeepCopy | include/rapidjson/document.h:2408-2431 | The deep copy is the value copied |
| JsonEquality.EqualIsSameMeaning | include/rapidjson/document.h:852-891 | On values without repeated member names, operator== holds exactly when both mean the same: objects as unordered maps, integers by their 64 bits |
| JsonEquality.EqualToItself | include/rapidjson/document.h:852-891 | So a deep copy compares equal to its original |
| JsonEquality.EqualNumbers | include/rapidjson/document.h:879-886 | Integers compare equal exactly when they are equal or 2 to the 64 apart: -1 equals 18446744073709551615 |
| JsonEquality.RepeatedNames | include/rapidjson/document.h:848-866 | With a repeated name, a value can equal one that does not equal it, and can equal itself, which the documentation denies |
| JsonEquality.EqualOfDistinct | include/rapidjson/document.h:848-866 | The documented rule holds of a left-hand side without repeated names: it equals exactly the values without repeated names that mean the same |
| JsonEquality.RuleOnTheLeft | include/rapidjson/document.h:848-866 | It fails of an object on the left, whose values are free of repeated names, exactly when members of one name mean the same: then some object equals it, and so does the object itself; comparing every value with the first of its name tells |
| JsonEquality.RuleOnTheRight | include/rapidjson/document.h:848-866 | On the right every object with such values is equalled by some object, one with repeated names if there is room |
| JsonEquality.EqualOneWay | include/rapidjson/document.h:857-866 | Objects that may repeat names compare equal exactly when they are of one size, members of one name on the left agree, and what the left means is part of what the right means |
| JsonEquality.EqualBack | include/rapidjson/document.h:857-866 | Equality is then returned exactly when the right has no further names and its members of one name agree |
| JsonEquality.FindMember | include/rapidjson/document.h:1153-1161 | The first member of that name, or the end |
| PointerRoundTrip.StringifyOfParse | include/rapidjson/pointer.h:802-972 | The tokens of any source that parses are printed by the plain form so that they parse again, those of a URI fragment also by the URI form |
| PointerRoundTrip.ParseOfStringify | include/rapidjson/pointer.h:941-972 | Whatever either form prints, Parse reads back: the same tokens in the same order |
| PointerRoundTrip.StringifyExists | include/rapidjson/pointer.h:941-972 | The plain form prints all names, the URI form exactly those that are well-formed UTF-8 |
| PointerRoundTrip.UriNamesAreUtf8 | include/rapidjson/pointer.h:844-866 | Names read from a URI fragment are well-formed UTF-8 |
| PointerRoundTrip.ReadNameOfText | include/rapidjson/pointer.h:840-894 | Reading the text of a name gives the name and stops at the next solidus |
| PointerRoundTrip.ChunkTakesNoSlash | include/rapidjson/pointer.h:811-815 | No round of the inner loop takes a solidus, so the first pass counts the tokens exactly |
| PointerIndex.IndexIsValue | include/rapidjson/pointer.h:895-917 | A name of digits without leading zero and with a value below 2 to the 32 gets that value as index |
| PointerIndex.IndexFormIff | include/rapidjson/pointer.h:887-903 | The names read as a number are exactly the decimal texts: digits only, no leading zero |
| PointerIndex.AppendAgrees | include/rapidjson/pointer.h:264-281 | Append(index) makes the token that parsing its name makes |
| PointerIndex.OverflowUnnoticed | include/rapidjson/pointer.h:907-916 | Beyond 32 bits the test m < n misses a number exactly when no added digit makes the value, cut to 32 bits, drop; the index is then the value modulo 2 to the 32 |
| PointerIndex.OverflowByOneDigit | include/rapidjson/pointer.h:907-916 | Between 2 to the 32 and ten times that: the number is missed exactly when it is, modulo 2 to the 32, not below a tenth of itself |
| PointerIndex.OverflowExample | include/rapidjson/pointer.h:907-916 | 8589934590 gets the index 4294967294 |
| JsonPointer.GenericPointer.Parse | include/rapidjson/pointer.h:802-930 | Tokens, names and indices, or error code and offset, are those of the grammar; the name buffer is no longer than the source and as many tokens are filled as the first pass counted; a byte behind the source is read exactly for the sources of ReadsBehind |
| PointerSyntax.PlainParse | include/rapidjson/pointer.h:802-930 | A source that is no URI fragment has tokens exactly when it is empty or begins with a solidus and has 0 or 1 behind each tilde, and printing the tokens gives it back; otherwise which of the two errors it is, and the offset, that of the first byte or the byte behind the first tilde at fault |
| PointerSyntax.UriParse | include/rapidjson/pointer.h:844-890 | A URI fragment that has tokens holds nothing but solidi, percent signs and unreserved characters; of one that has none this is so up to the offset, and each of the four errors says what stands there |
| PointerSyntax.ByteText | include/rapidjson/pointer.h:949-969 | How a byte of a name is written in either form |
| PointerSyntax.ReservedIs | include/rapidjson/pointer.h:790-792 | Percent-encoded is what section 2.3 of RFC 3986 does not list as unreserved |
| JsonPointer.GenericPointer.Stringify | include/rapidjson/pointer.h:941-972 | Prints the tokens, or fails, as the grammar says; on failure everything before the first character that cannot be encoded has been put |
| JsonPointer.GenericPointer.Equals | include/rapidjson/pointer.h:334-348 | True exactly when both are valid and have the same tokens, names and indices, wherever the tokens come from |
| JsonPointer.GenericPointer.Append | include/rapidjson/pointer.h:208-217 | A new pointer with the tokens of the old one and the one appended |
| PointerLimits.TokensComeBackIff | include/rapidjson/pointer.h:941-972 | Printing any tokens and parsing the text gives the same tokens exactly when each has the index its name stands for |
| PointerLimits.AppendedComesBackIff | include/rapidjson/pointer.h:226-281 | A token appended by name alone, stored without an index, comes back exactly when its name is no index; one appended by index always does |
| PointerLimits.BehindEndsInTriplet | include/rapidjson/pointer.h:991-1011 | Parse reads behind the end of the empty source, and otherwise only of a URI fragment that ends in a percent-encoded byte |
| PointerLimits.BehindExample | include/rapidjson/pointer.h:991-1011 | For #/%E4 it does |
| PointerLimits.TakesTriplet | include/rapidjson/pointer.h:991-1011 | How far taking a percent-encoded byte moves the stream: as far as there is one |
| JsonPointer.ParseToken | include/rapidjson/pointer.h:834-918 | One token: name, terminator and index stored, everything stored before untouched |
| JsonPointer.ReadToken | include/rapidjson/pointer.h:840-894 | The characters of one name, or the error and its offset |
| JsonPointer.ReadChunk | include/rapidjson/pointer.h:841-893 | One round of the inner loop |
| JsonPointer.ValidatePercent | include/rapidjson/pointer.h:845-853 | A percent-encoded character is accepted exactly when its triplets decode to UTF-8; whatever is found, nothing is written past the buffer, and the end of the source is passed exactly when the character is cut off there |
| JsonPointer.TakePercent | include/rapidjson/pointer.h:991-1011 | One triplet, or 0 and the invalid mark, and where the stream stops |
| JsonPointer.TakeEscape | include/rapidjson/pointer.h:875-889 | ~0 and ~1 behind a character, or the error |
| JsonPointer.ConvertIndex | include/rapidjson/pointer.h:896-917 | The index of a name |
| JsonPointer.CountSlashes | include/rapidjson/pointer.h:811-815 | The number of tokens |
| JsonPointer.StringifyName | include/rapidjson/pointer.h:949-969 | The text of one name, or failure behind the part that can be encoded |
| PointerTree.GetOfCreate | include/rapidjson/pointer.h:401-447 | After Create, Get resolves to the place Create returned exactly when no "-" token has met an array |
| PointerEffects.CreateMeets | include/rapidjson/pointer.h:401-447 | What Create makes of each value on its way: "-" adds one null to an array; an index pads an array, or a new one in the place of a value that is no container, with null up to it; any other token makes an object of what is none, without keeping anything, and finds the first member of its name or adds one at the end; all other elements and members stay as they were |
| PointerEffects.SetMeets | include/rapidjson/pointer.h:610-617 | The same for Set, with the value given in the place where no token is left |
| PointerTree.CreateTwice | include/rapidjson/pointer.h:401-447 | A second Create reports alreadyExist and changes nothing exactly when no "-" token has met an array |
| PointerTree.CreateExisting | include/rapidjson/pointer.h:401-447 | alreadyExist is true exactly when Get would have resolved, and then the tree is untouched |
| PointerTree.GetOfSet | include/rapidjson/pointer.h:610-617 | After Set, Get resolves to the value set exactly when no "-" token has met an array |
| PointerTree.SetKeepsOthers | include/rapidjson/pointer.h:610-617 | Unless an array is turned into an object, Set changes no value off the way to its own place |
| PointerTree.WithoutDash | include/rapidjson/pointer.h:406-410 | A pointer without a "-" token never meets the exception |
| PointerIndex.KeysAreSound | include/rapidjson/pointer.h:208-281 | No token Parse or Append makes has the name "-" and an index |
| PointerTree.ErasedIs | include/rapidjson/pointer.h:711-749 | Erase returns true exactly on a non-empty pointer that Get resolves; only the parent of the child Get finds is replaced |
| PointerEffects.ErasedTakesOut | include/rapidjson/pointer.h:711-749 | Erase takes the child Get finds out of its parent, those behind it move up with their names, the parent stays an array or object; what is off the way to the parent stays as it was, and what is above it keeps its kind, size and names |
| PointerTree.FindOfMake | include/rapidjson/pointer.h:406-438 | What one round of Create makes, one round of Get finds and another round of Create leaves alone |
| PointerUpdate.ValueTree.Create | include/rapidjson/pointer.h:401-447 | The walk in place makes that tree, place and flag |
| PointerUpdate.ValueTree.Get | include/rapidjson/pointer.h:479-507 | The walk finds that place, or nothing and the number of the first token that does not resolve |
| PointerUpdate.ValueTree.Set | include/rapidjson/pointer.h:610-617 | Stores the value at that place |
| PointerUpdate.ValueTree.Erase | include/rapidjson/pointer.h:711-749 | Removes that child, or changes nothing and returns false |
| PointerUpdate.MakeChild | include/rapidjson/pointer.h:406-438 | The body of the loop of Create: appending, change of type, padding with null, new member |
| PointerUpdate.FindChild | include/rapidjson/pointer.h:483-499 | The switch in the loops of Get and Erase |
| PoolSpec.RunSafe | include/rapidjson/allocators.h:145-222 | After any run of Malloc, Realloc and Clear every live block is inside the used part of one chunk and aligned with it, no two live blocks overlap, the chunks are apart, and Size() is at most Capacity(); unless the user brought a buffer that is not aligned, every live block is aligned |
| PoolSpec.AlignedIff | include/rapidjson/allocators.h:125-134 | A live block is aligned exactly when its chunk is, which only a buffer of the user may not be |
| PoolSpec.StepSafe | include/rapidjson/allocators.h:145-222 | Every single call keeps that |
| PoolSpec.MallocSafe | include/rapidjson/allocators.h:176-188 | Malloc keeps it, and the block returned is no live one |
| PoolSpec.MallocPlaces | include/rapidjson/allocators.h:176-188 | Malloc puts the block behind what the head chunk has given out if there is room, whatever the base allocator would answer, and then the capacity stays; otherwise in one chunk more, of the greater of the chunk capacity and the aligned size; Size() grows by exactly the aligned size; null comes exactly for size 0 or without room and answer, and changes nothing |
| PoolSpec.ReallocSafe | include/rapidjson/allocators.h:191-222 | Realloc keeps it in each of its ways |
| PoolSpec.ReallocStaysIff | include/rapidjson/allocators.h:191-212 | Realloc returns the same pointer exactly when the aligned size need not grow, or the block is the last of the head chunk and there is room |
| PoolSpec.ReallocTakes | include/rapidjson/allocators.h:191-222 | What Realloc takes from the pool: nothing, the difference, or a new block just where Malloc would put it; Size() and Capacity() in each case |
| PoolSpec.ReallocKeepsBytes | include/rapidjson/allocators.h:191-222 | Realloc keeps the bytes old and new size share and changes no byte of another live block |
| PoolSpec.CopyKeepsOthers | include/rapidjson/allocators.h:215-219 | Source and target of the copy do not overlap |
| PoolSpec.ClearedIs | include/rapidjson/allocators.h:145-153 | Clear leaves nothing but the user's buffer, empty |
| PoolSpec.SizeWithinCapacity | include/rapidjson/allocators.h:158-173 | No more is given out than there is |
| PoolSpec.LastIsInHead | include/rapidjson/allocators.h:205-212 | A block that ends where the head chunk does is in the head chunk, so expanding it is sound |
| PoolAllocator.MemoryPoolAllocator.constructor | include/rapidjson/allocators.h:110-113 | An empty pool |
| PoolAllocator.MemoryPoolAllocator.WithBuffer | include/rapidjson/allocators.h:125-134 | One empty chunk in the user's buffer |
| PoolAllocator.MemoryPoolAllocator.Clear | include/rapidjson/allocators.h:145-153 | Gives back every chunk but the user's buffer, which it empties; the loop ends |
| PoolAllocator.MemoryPoolAllocator.Malloc | include/rapidjson/allocators.h:176-188 | A block at the end of the head chunk, behind a new chunk if that is full, or null |
| PoolAllocator.MemoryPoolAllocator.Realloc | include/rapidjson/allocators.h:191-222 | Keeps, expands or moves the block |
| PoolAllocator.MemoryPoolAllocator.AddChunk | include/rapidjson/allocators.h:237-249 | A new chunk at the head of the list, or nothing |
| PoolAllocator.MemoryPoolAllocator.Capacity | include/rapidjson/allocators.h:158-163 | The sum of the capacities |
| PoolAllocator.MemoryPoolAllocator.Size | include/rapidjson/allocators.h:168-173 | The sum of the sizes |
| FileStreams.FileReadStream.Take | include/rapidjson/filereadstream.h:51 | The bytes of the file in order, then '\0' for ever |
| FileStreams.FileReadStream.Peek | include/rapidjson/filereadstream.h:50 | The next byte |
| FileStreams.FileReadStream.Tell | include/rapidjson/filereadstream.h:52 | The number of bytes taken from the file |
| FileStreams.FileReadStream.Read | include/rapidjson/filereadstream.h:66-81 | One step on, refilling the buffer when it is used up |
| FileStreams.FileWriteStream.Put | include/rapidjson/filewritestream.h:40-45 | File and pending buffer together grow by the byte |
| FileStreams.FileWriteStream.PutN | include/rapidjson/filewritestream.h:47-61 | They grow by n bytes, for every n, from a full buffer too; the loop ends |
| FileStreams.FileWriteStream.Flush | include/rapidjson/filewritestream.h:63-72 | Everything put so far is in the file |
| CheckedMultiply.CheckedMultiply | include/CLI/Validators.hpp:461-474 | For every integer type: true exactly when the product fits, which is then stored; otherwise the argument stays |
| CheckedMultiply.OverflowCheckIsExact | include/CLI/Validators.hpp:447-458 | The quotient test is exact on nonzero factors of equal and of different sign |
| CheckedMultiply.LeastOverflows | include/CLI/Validators.hpp:466-468 | The least value times anything but 0 and 1 overflows |

## Left out

- ThlangFunctionCorrect.CompilerCorrect: does not cover floats, strings, calls, function pointers, extern functions, variables of other widths, uninitialised declarations beyond `DeclareThenAssign`, or assignments inside expressions, for which the generator has no or other code; nor division and shifts by anything but such literals, as LLVM leaves cases of them undefined (`OperatorCorrect` and `OperatorDefinedIff` are about all operands).
- The operators `%`, `&&` and `!` have no code in the generator.
- `setglobal`, the module and function tables, and everything behind the blocks (object files, linking).
- The lexer and the parser of ThLang, except for the shape of `else if`.
- JsonReader.ReadValue: numbers with a fraction, an exponent or more than 64 bits are not read; error codes and offsets, comments, trailing commas and the other parse flags are not modelled.
- JsonWriter.Writer.Number: doubles, `RawNumber` and `RawValue` are not modelled; strings are written with the default flags, which copy bytes without validating them, and into a target that supports Unicode.
- JsonDocument.Document.EndObject: a member name that is not a string, which the handler could be fed, has no place in the values of the model.
- JsonPointer.GenericPointer.Parse: the length of a name is not cut to 32 bits, and the byte behind an empty source, which the source reads, is taken not to be a number sign; what the other bytes read behind the source hold does not matter.
- JsonPointer.GenericPointer.Stringify: of the character at which it fails, what has been put is not stated, because the encoder reads on behind the name there.
- JsonPointer.StringifyName: the same.
- PointerUpdate.ValueTree.Create: a tree is a value whose parts are replaced, so the references a caller holds into it, capacities and the allocator are not captured; no token is named `-` and has an index.
- PoolAllocator.MemoryPoolAllocator.Malloc: sizes near the greatest machine number, where the alignment wraps, are not modelled; the chunk list is a sequence instead of linked headers inside the chunks.
- Utf8.Decode: what `*codepoint` holds after a failure matters to no caller; the model states the value computed.
- UTF-32, byte order marks and run-time selection of encodings.
- SIMD variants, the iterative parser, schema validation and regular expressions of RapidJSON.
- The rest of CLI11: option objects, help texts and type deduction.
