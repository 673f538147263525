# A verified model of algorithms from the Hermes JavaScript engine

This project models, in Dafny, the self-contained sequential algorithms of the
Hermes JavaScript engine and its tooling, and proves properties of the model.
Each source file is one module, in one `.dfy` file:

- **Lexers, codecs and table builders.**
  - `JsonLexer`: the JSON tokenizer of `JSON.parse`, a cursor over UTF-16 code units. It covers white space, punctuators, literal words, number text and strings with escapes.
  - `SynthTrace`: the `tag:payload` value codec of synthetic traces, the ID and bit-pattern number codecs, value equality, and the flush policy of the trace recorder.
  - `SerializedLiteral`: the tag layout of serialized literal buffers.
  - `RegexTable`: the uniquing regexp table.
  - `BytecodeLayout`: the bytecode module's jump-table and source-map offset arithmetic.
  - `TableGenHeader`: the fixed-width banner of TableGen output.
- **Front-end rules.**
  - `SemanticResolver`: directive prologues, declaration names, redeclaration, private names, l-values, labels.
  - `FlowChecker`: type-argument keys, the generic specialisation table, and the object, tuple and function type-annotation checks.
  - `Ts2Flow`: the TypeScript to Flow annotation rewrite and its validator.
  - `IrGen`: IR generation bookkeeping (compiled entities, the compilation queue, the surrounding-try stack, labels, try/catch scaffolding).
- **IR analyses and passes over a control-flow graph** (`Cfg` holds the shared graph).
  - `IREval`: constant folding of literals.
  - `CfgAnalysis`: post order and try depths.
  - `Loops`: loop headers and preheaders.
  - `TryRegions`: enclosing tries and catch-target fix-up.
  - `SimplifyCfg`: static branch folding and trampoline removal.
  - `LoadConstants`: lowering of constant operands.
  - `StackPromotion`: simple stack promotion.
  - `TdzDedup`: TDZ check deduplication along the dominator tree.
  - `HoistStartGenerator`: moving `StartGenerator` to the entry.
  - `Auditor`: the auditor's counters.
- **VM data structures.**
  - `HeapAddress`: address masking for aligned heap segments.
  - `HeapSegment`: the segment's bump allocator and its levels.
  - `CellKind`: cell-kind range predicates.
- **Tooling and benchmarks.**
  - `JsxText` and `JsxTransform`: the flow-bundler's JSX to `jsx()` call transform, including JSX text whitespace normalisation.
  - `WidgetTree`, `WidgetsJs` and `WidgetsCpp`: render-tree reconciliation and entity/component diffing of the widgets benchmark, in its JavaScript and C++ versions.

Code that works by changing state is modelled with classes and methods whose loops carry invariants.
Each such method is proved against a specification function, and the properties the source
promises are proved about that function as lemmas. Pure code is modelled as datatypes, functions and lemmas.
`Wrappers` holds the `Option` and `Result` types used for error paths.

## Model

| member | source | states |
|---|---|---|
| CfgAnalysis.VisitPostOrder | lib/IR/Analysis.cpp:30-53 | the depth-first walk with an explicit stack and visited set lists each block reachable from the start exactly once, only reachable blocks, closed under successors, and the start block last |
| CfgAnalysis.VisitNextSuccessor | lib/IR/Analysis.cpp:36-48 | one step of the inner loop keeps the walk's invariant and either visits a new block or advances the top frame's successor cursor |
| CfgAnalysis.PostOrderAnalysis | lib/IR/Analysis.cpp:55-66 | the post order from the entry lists exactly the blocks reachable from the entry, without repeats, and the entry comes last |
| CfgAnalysis.EnterBlock | lib/IR/Analysis.cpp:218-245 | a block entered at depth d has its own depth lowered by a leading CatchInst; a TryStart terminator raises the depth its successors are entered at and a TryEnd lowers it |
| CfgAnalysis.RecordDepth | lib/IR/Analysis.cpp:224-227 | a non-zero depth raises `maxDepth` and is recorded for the block only on its first visit (`try_emplace`); a zero depth changes nothing |
| CfgAnalysis.GetBlockTryDepths | lib/IR/Analysis.cpp:201-247 | from the entry at depth 0, every block entered gets one entry depth explained by the block that first pushed it (TryEnd follows only its branch target, throws follow nothing); exactly the blocks with non-zero own depth are recorded, with that depth, and `maxDepth` is the maximum recorded depth (0 when none) |
| CfgAnalysis.ProcessPending | lib/IR/Analysis.cpp:209-246 | one iteration pops a block, records its depth and pushes its unvisited followed successors, keeping the loop invariant and processing one more block |
| TryRegions.SurroundingTryBlockIterator.Next | lib/IR/Analysis.cpp:302-356 | `next` returns false iff the worklist is empty; otherwise the popped block becomes current with its enclosing try, is processed once, keeps its recorded try, and its unseen successors are recorded and pushed |
| TryRegions.SurroundingTryBlockIterator.constructor | lib/IR/Analysis.cpp:270-273 | the iterator starts with the entry block on the worklist, recorded as outside any try, and no try seen |
| TryRegions.Step | lib/IR/Analysis.cpp:302-356 | one `next` on a non-empty worklist makes the top frame current, processes its block once and records it with its enclosing try |
| TryRegions.LeaveBlock | lib/IR/Analysis.cpp:310-341 | a TryStart terminator names the try body; a TryEnd, or a throw with a catch target, pops to the try enclosing the current try's block; other blocks keep their enclosing try |
| TryRegions.PoppedTry | lib/IR/Analysis.cpp:316-337 | only a TryEnd or a throw changes the enclosing try, and then to the try recorded as enclosing the current one's block, or to none |
| TryRegions.RecordSuccessor | lib/IR/Analysis.cpp:343-353 | a successor is recorded with the TryStart when it is the try body, else with the popped enclosing try, and pushed only if not recorded before; existing entries never change |
| TryRegions.FinishedIteration | lib/IR/Analysis.cpp:313-316 | a finished walk records exactly the processed blocks with their innermost enclosing tries, and `hasTry` holds iff some reachable block ends in TryStart (see also lines 359-370) |
| TryRegions.FindEnclosingTrysPerBlock | lib/IR/Analysis.cpp:359-370 | the result is None iff no reachable block ends in TryStart; otherwise it maps each reachable block to its innermost enclosing try |
| TryRegions.FixedBlock | lib/IR/Analysis.cpp:379-383 | fixing up a block keeps its throw-ness and only replaces a processed throw's catch target by the enclosing try's catch block, whose successors become `ThrowSuccs` of the new target |
| TryRegions.ThrowSuccs | lib/IR/Analysis.cpp:379-383 | a throw's only successor is its catch target, and it has none without one |
| TryRegions.FixedTargets | lib/IR/Analysis.cpp:372-388 | the fixed-up function has as many blocks, and every block outside the walk or not ending in a throw is unchanged |
| TryRegions.FixedTargetsWellFormed | lib/IR/Analysis.cpp:372-388 | the fixed-up function stays well formed, and every throw the fix-up visited has exactly its new catch target as successor |
| TryRegions.FixupCatchTargets | lib/IR/Analysis.cpp:372-388 | every reachable throw's catch target is set from its enclosing try (none outside any try), nothing else changes, and the result is true iff some target changed |
| Loops.FindLoopHeaders | lib/IR/Analysis.cpp:75-148 | the DFS discovers the entry and a successor-closed set of blocks with distinct discovery times; each recorded parent is discovered before its child and has it as a successor; every block finishes once, in some order, and its header set is exactly the one collected from the blocks finished before it (back-edge targets and unfinished headers of finished successors), recorded iff non-empty; the blocks with header sets are listed in finishing order |
| Loops.Discover | lib/IR/Analysis.cpp:97-111 | discovering a block records its discovery time and pushes its undiscovered successors with it as their parent |
| Loops.PushSuccessors | lib/IR/Analysis.cpp:103-110 | every undiscovered successor of the block is pushed above the old stack with the block as its parent, and nothing discovered is pushed |
| Loops.CollectHeaders | lib/IR/Analysis.cpp:119-138 | a block's header set holds exactly its unfinished successors (back edges) and the unfinished headers of its finished successors |
| Loops.FinishTop | lib/IR/Analysis.cpp:113-146 | popping an unfinished block finishes it: its header set, collected from the blocks finished so far, is recorded, and the search invariant, including the recorded sets of all earlier finished blocks, still holds |
| Loops.RecordHeaders | lib/IR/Analysis.cpp:139-145 | finishing a block records its header set iff the set is non-empty, and never twice |
| Loops.ReachableDiscovered | lib/IR/Analysis.cpp:95-111 | every block reachable from the entry is discovered |
| Loops.ClassifyHeaders | lib/IR/Analysis.cpp:150-168 | a header is bad iff it fails to dominate some block of its loop; a good header gets its DFS parent as preheader iff that parent properly dominates it, decided at the first entry that holds it |
| Loops.ClassifyEntry | lib/IR/Analysis.cpp:150-168 | the headers of one entry, taken in any order, extend the bad set and the preheader table as the classification says |
| Loops.GoodHeaderHasPreheader | lib/IR/Analysis.cpp:160-166 | a good header whose DFS parent properly dominates it always receives that parent as preheader |
| Loops.InnermostHeader | lib/IR/Analysis.cpp:174-183 | the chosen header is the good header with the largest discovery time, or none when every header is bad |
| Loops.InnermostUnique | lib/IR/Analysis.cpp:174-183 | with distinct discovery times the innermost header does not depend on iteration order |
| Loops.InnermostHeaders | lib/IR/Analysis.cpp:170-185 | exactly the blocks with a non-empty header set are mapped, each to its innermost good header |
| Loops.LoopAnalysis.constructor | lib/IR/Analysis.cpp:75-186 | the tables are those the three phases compute (`Analysed`): every reachable block discovered, parents and header sets as the search records them, the bad set and preheader table as classified, and each block's header innermost |
| Loops.Analyze | lib/IR/Analysis.cpp:75-186 | the search, the classification and the innermost-header phase together produce tables that satisfy `Analysed` |
| Loops.LoopAnalysis.GetLoopHeader | lib/IR/Analysis.cpp:188-190 | the header is a good member of the block's header set with maximal discovery time, and none iff the block has no good header |
| Loops.LoopAnalysis.GetLoopPreheader | lib/IR/Analysis.cpp:192-198 | a preheader exists iff the block has a header that got one, and it is that header's DFS parent |
| JsonLexer.SkipWhiteSpace | lib/VM/JSLib/JSONLexer.cpp:22-25 | the position reached is the first at or after the start that is not TAB, CR, LF or SP, and everything skipped is one of those four (see also lines 36-39) |
| JsonLexer.LexSkipsWhiteSpace | lib/VM/JSLib/JSONLexer.cpp:35-39 | lexing from a whitespace code unit gives the same token and end position as lexing from the next one |
| JsonLexer.OnlyWhiteSpaceIsEof | lib/VM/JSLib/JSONLexer.cpp:41-45 | when only whitespace remains the token is end-of-input, at the end of the input, and the call succeeds |
| JsonLexer.Lex | lib/VM/JSLib/JSONLexer.cpp:35-93 | a token, when one is read, ends after the skipped whitespace and within the input |
| JsonLexer.LexPunctuatorExtent | lib/VM/JSLib/JSONLexer.cpp:49-68 | each of `{ } [ ] , :` yields its punctuator and consumes exactly one code unit; `true`, `false` and `null` consume exactly their letters |
| JsonLexer.MatchWordMeaning | lib/VM/JSLib/JSONLexer.cpp:252-265 | `scanWord` succeeds iff the whole keyword comes next, and then consumes exactly it and yields its token |
| JsonLexer.HexDigit | lib/VM/JSLib/JSONLexer.cpp:101-108 | a digit of a `\u` escape has a value below 16 |
| JsonLexer.Or32DigitIsHexDigit | lib/VM/JSLib/JSONLexer.cpp:101-108 | the `c OR 32` test of the source accepts exactly the code units of the range table, with the same values |
| JsonLexer.HexDigitAccepts | lib/VM/JSLib/JSONLexer.cpp:101-108 | a code unit is accepted as a digit iff it is an RFC 8259 hex digit or one of U+0010 to U+0019 |
| JsonLexer.HexDigitValue | lib/VM/JSLib/JSONLexer.cpp:102-105 | '0'-'9', 'A'-'F' and 'a'-'f' yield their hexadecimal values |
| JsonLexer.RfcHexDigit | lib/VM/JSLib/JSONLexer.cpp:101-108 | the corrected digit test accepts exactly the RFC 8259 hex digits, with the values the source gives them |
| JsonLexer.ControlCharIsHexDigit | lib/VM/JSLib/JSONLexer.cpp:101-103 | U+0010 is read as the digit 0 by the source, and is no digit under RFC 8259 |
| JsonLexer.UnicodeEscape | lib/VM/JSLib/JSONLexer.cpp:95-114 | a successful `consumeUnicode` consumes exactly four code units |
| JsonLexer.UnicodeEscapeMeaning | lib/VM/JSLib/JSONLexer.cpp:95-114 | `consumeUnicode` succeeds iff four accepted digits follow, and yields their base-16 value (the 16-bit accumulator never wraps) |
| JsonLexer.UnicodeDigitsStop | lib/VM/JSLib/JSONLexer.cpp:98-107 | a missing or rejected digit makes the escape an error |
| JsonLexer.ControlCharsInUnicodeEscapeAccepted | lib/VM/JSLib/JSONLexer.cpp:101-113 | `\u` followed by four U+0010 code units is accepted and decodes to U+0000 |
| JsonLexer.StringBody | lib/VM/JSLib/JSONLexer.cpp:162-249 | a string that is read ends just after a closing quote |
| JsonLexer.StringBodyRejects | lib/VM/JSLib/JSONLexer.cpp:183-185 | a raw code unit up to U+001F, a backslash at the end of input, and an unknown escape character are errors (see also lines 195-197, 233-234) |
| JsonLexer.SimpleEscapeRead | lib/VM/JSLib/JSONLexer.cpp:198-222 | the escapes `\" \/ \\ \b \f \n \r \t` append 34/47/92/8/12/10/13/9 and move past both code units |
| JsonLexer.PlainUnitRead | lib/VM/JSLib/JSONLexer.cpp:237-242 | any other code unit above U+001F is taken as it is |
| JsonLexer.UnicodeEscapeRead | lib/VM/JSLib/JSONLexer.cpp:223-231 | `\uXXXX` appends the escape's value and moves past it |
| JsonLexer.UnterminatedStringFails | lib/VM/JSLib/JSONLexer.cpp:162 | a string with no closing quote ahead is an error (see also line 249) |
| JsonLexer.StringRoundTrip | lib/VM/JSLib/JSONLexer.cpp:162-249 | reading back any string written with the standard JSON escapes and a closing quote yields the original code units and stops just after the quote |
| JsonLexer.NumberEnd | lib/VM/JSLib/JSONLexer.cpp:118-126 | the number text is the maximal run of `- + . e E` and digits |
| JsonLexer.ScanNumberMeaning | lib/VM/JSLib/JSONLexer.cpp:116-143 | a number token is read from a maximal run of number characters with no '0' directly before a digit, and a leading '0' before a digit is an error naming that digit |
| JsonLexer.Lexer.ConsumeUnicode | lib/VM/JSLib/JSONLexer.cpp:95-114 | the cursor loop returns `UnicodeEscape` and leaves the cursor after the digits |
| JsonLexer.Lexer.ScanWord | lib/VM/JSLib/JSONLexer.cpp:252-265 | the loop's status, token and cursor are those of `MatchWord` |
| JsonLexer.Lexer.ScanNumber | lib/VM/JSLib/JSONLexer.cpp:116-143 | the loop's status, token and cursor are those of `ScanNumberText` |
| JsonLexer.Lexer.ScanString | lib/VM/JSLib/JSONLexer.cpp:146-250 | the loop's status, token and cursor are those of `StringBody`, as a string value or as a property-key symbol |
| JsonLexer.Lexer.AdvanceHelper | lib/VM/JSLib/JSONLexer.cpp:35-93 | the status, token and cursor are those of `Lex`, and the first code unit of a token is recorded |
| JsonLexer.Lexer.Advance | lib/VM/JSLib/JSONLexer.cpp:27-29 | `advance` lexes with strings read as values |
| JsonLexer.Lexer.AdvanceStrAsSymbol | lib/VM/JSLib/JSONLexer.cpp:31-33 | `advanceStrAsSymbol` lexes with strings read as symbols |
| JsonLexer.WrittenStringRead | lib/VM/JSLib/JSONLexer.cpp:162-249 | the string loop reads back exactly the code units a JSON writer escaped, stopping just past the closing quote |
| SynthTrace.ToDecimal | API/hermes/SynthTrace.cpp:246-254 | `std::to_string` of an id is a non-empty run of decimal digits without a leading zero |
| SynthTrace.RunLength | API/hermes/SynthTrace.cpp:73 | the run strtoll reads is maximal: every character in it satisfies the test and the first one after it does not |
| SynthTrace.DecodeID | API/hermes/SynthTrace.cpp:70-77 | the empty string reads as 0; every non-empty string of decimal digits is accepted; an accepted string ends in a digit, a leading '-' is accepted only for the value 0, and the value never exceeds LLONG_MAX |
| SynthTrace.DecodeIDForms | API/hermes/SynthTrace.cpp:73-75 | strtoll's leading white space and '+' sign are accepted (" 7", "+5"), "-0" reads as 0, and "-5", "7 " and "+" are malformed |
| SynthTrace.LeadingSpaceSkipped | API/hermes/SynthTrace.cpp:73-75 | white space before the digits is skipped; white space after them fails the end-pointer assert |
| SynthTrace.PlusSignRead | API/hermes/SynthTrace.cpp:73-75 | a '+' sign is read, and a sign with no digit is malformed |
| SynthTrace.MinusSignRead | API/hermes/SynthTrace.cpp:73-75 | "-0" passes the non-negative assert and a negative id fails it |
| SynthTrace.DecimalRoundTrip | API/hermes/SynthTrace.cpp:70-77 | reading back the decimal text of n gives n (see also lines 246-254) |
| SynthTrace.DecodeIDRoundTrip | API/hermes/SynthTrace.cpp:70-77 | `decodeID` inverts `std::to_string` for every id up to LLONG_MAX |
| SynthTrace.HexDigitsOf | API/hermes/SynthTrace.cpp:61-65 | the printed nibbles are lower-case hex digits, as many as asked for |
| SynthTrace.DoublePrinter | API/hermes/SynthTrace.cpp:51-68 | `doublePrinter` writes "0x" and at least 14 hex digits (the width 16 counts the prefix) |
| SynthTrace.DecodeNumber | API/hermes/SynthTrace.cpp:34-49 | `decodeNumber` succeeds iff the text starts with "0x" (the assert at 41), its value fits in 64 bits, and "0x" followed only by hex digits of a 64-bit value reads as that value |
| SynthTrace.DecodeNumberForms | API/hermes/SynthTrace.cpp:44-47 | the hex stream stops at the first non-hex character ("0x1fzz" is 0x1f), a bare "0x" reads as 0, and a text without the prefix fails the assert |
| SynthTrace.HexDigitsValue | API/hermes/SynthTrace.cpp:44-47 | reading back `count` printed nibbles gives n modulo 16^count (see also lines 61-65) |
| SynthTrace.BelowPow16 | API/hermes/SynthTrace.cpp:61-65 | a value is below 16 to the power of any width that covers its significant nibbles, so the printed width loses nothing |
| SynthTrace.NumberRoundTrip | API/hermes/SynthTrace.cpp:34-68 | `decodeNumber(doublePrinter(x))` recovers every 64-bit pattern |
| SynthTrace.DecodePrefixedHex | API/hermes/SynthTrace.cpp:41-47 | "0x" followed by hex digits is read as their value |
| SynthTrace.TagName | API/hermes/SynthTrace.cpp:240-262 | every tag text is non-empty and holds no ':' |
| SynthTrace.Payload | API/hermes/SynthTrace.cpp:241-258 | no payload holds a ':' (undefined and null have an empty payload, bools "true"/"false") |
| SynthTrace.Encode | API/hermes/SynthTrace.cpp:240-262 | `encode` writes the tag, a ':' and the payload |
| SynthTrace.FindColon | API/hermes/SynthTrace.cpp:266-267 | the split point is the first ':' and is absent iff the text holds none |
| SynthTrace.Decode | API/hermes/SynthTrace.cpp:265-295 | a decoded value's tag is the text before the first ':' |
| SynthTrace.DecodeTagged | API/hermes/SynthTrace.cpp:273-294 | the dispatch on the tag yields a value of that tag |
| SynthTrace.SplitAtTag | API/hermes/SynthTrace.cpp:266-272 | an encoded text splits at the end of its tag, leaving exactly the payload |
| SynthTrace.DecodeEncode | API/hermes/SynthTrace.cpp:240-295 | `decode(encode(v))` is v for every kind of value whose ids fit strtoll and whose number is a 64-bit pattern |
| SynthTrace.IdTaggedRoundTrip | API/hermes/SynthTrace.cpp:246-258 | the payload of an object, bigint, string, propNameID or symbol decodes back to that value under its own tag (see also lines 276-294) |
| SynthTrace.IdTagDecodes | API/hermes/SynthTrace.cpp:276-294 | under an id kind's tag, a payload that reads as the id yields the value |
| SynthTrace.LargeIdIsClamped | API/hermes/SynthTrace.cpp:70-77 | an id above LLONG_MAX comes back clamped to LLONG_MAX |
| SynthTrace.DoubleEqMeaning | API/hermes/SynthTrace.cpp:95-97 | `==` on the doubles is symmetric, false for NaN even against itself, and holds between different bit patterns only for +0 and -0 |
| SynthTrace.EqualMeaning | API/hermes/SynthTrace.cpp:90-108 | equality needs equal tags; undefined and null values of one tag are equal; objects, strings and propNameIDs compare by uid; bools by value; numbers as doubles (so +0 equals -0 and NaN is unequal to itself) |
| SynthTrace.DistinctBigIntsCompareEqual | API/hermes/SynthTrace.cpp:98-107 | two different bigints, and two different symbols, compare equal as written |
| SynthTrace.EqualByUidIsIdentity | API/hermes/SynthTrace.cpp:90-108 | with bigint and symbol uids compared too, equality of traced values other than numbers is identity, and numbers keep the double `==` |
| SynthTrace.ReleaseUnusedNamesInverse | API/hermes/SynthTrace.cpp:613-644 | `releaseUnusedFromName` inverts `nameFromReleaseUnused`, accepts exactly none/old/youngOnFull/youngAlways and throws on anything else |
| SynthTrace.TraceRecorder.constructor | API/hermes/SynthTrace.cpp:110-131 | a new trace starts with no buffered and no written records |
| SynthTrace.TraceRecorder.FlushRecords | API/hermes/SynthTrace.cpp:653-658 | every buffered record goes to the sink in order and the buffer ends empty |
| SynthTrace.TraceRecorder.FlushRecordsIfNecessary | API/hermes/SynthTrace.cpp:646-651 | records are flushed iff a sink exists and at least the threshold is buffered; otherwise nothing changes |
| SemanticResolver.VisibilityOf | lib/Sema/SemanticResolver.cpp:2588-2597 | a directive asks for a visibility no stronger than Sensitive |
| SemanticResolver.PrologueLength | lib/Sema/SemanticResolver.cpp:2578-2581 | the prologue is the longest run of leading directives: scanning stops at the first statement that is not one |
| SemanticResolver.ScanDirectives | lib/Sema/SemanticResolver.cpp:2575-2629 | the loop over the body computes the directive summary `DirectivesOf(body)` |
| SemanticResolver.FoldUseStrict | lib/Sema/SemanticResolver.cpp:2585-2587 | the summary records the index of the first "use strict" and only that one |
| SemanticResolver.FoldVisibility | lib/Sema/SemanticResolver.cpp:2588-2597 | `sourceVisibility` is the strongest visibility any directive asked for, so it only ever increases |
| SemanticResolver.FoldInline | lib/Sema/SemanticResolver.cpp:2602-2625 | `alwaysInline` and `noInline` are never both set; whichever of 'inline' and 'noinline' came last wins |
| SemanticResolver.ScanStopsAtNonDirective | lib/Sema/SemanticResolver.cpp:2578-2581 | nothing after the first non-directive statement changes the summary |
| SemanticResolver.PrologueOf | lib/Sema/SemanticResolver.cpp:2578-2581 | a run of directives followed by another statement is exactly the prologue |
| SemanticResolver.ValidDeclarationNameMeaning | lib/Sema/SemanticResolver.cpp:2456-2492 | loose code refuses only a let/const binding named 'let'; strict code also refuses 'arguments' and 'eval' for every kind and a parameter named 'let'; every other name is accepted |
| SemanticResolver.RedeclarationRules | lib/Sema/SemanticResolver.cpp:2259-2400 | for a valid name redeclared in the same function: var after var reuses the earlier Decl; a scoped function after a var in another scope is accepted; a scoped function after a scoped function is refused iff the code is strict and the scope is the same; var after let is always refused; a scoped function after let, and let after var, scoped function or let, are refused iff in the same scope; let after a parameter iff at the top level; let after a catch variable iff the catch scope is the parent |
| SemanticResolver.Declare | lib/Sema/SemanticResolver.cpp:2222-2454 | a declaration is rejected iff its name is invalid or it conflicts with a binding that is not an undeclared global property; it reuses the previous Decl only when that one is var-like; it reuses a promoted function only for a promoted scoped function; without a previous binding it is rejected or new |
| SemanticResolver.DeclarePrivateStep | lib/Sema/SemanticResolver.cpp:2003-2073 | declaring a private name only adds an entry or turns a lone getter or setter into a getter-setter pair, and a paired name refuses every further declaration |
| SemanticResolver.DeclarePrivate | lib/Sema/SemanticResolver.cpp:2003-2073 | one class element adds at most one error, a duplicate or a static mismatch carrying its index; an element in error leaves the names as they were; afterwards its name is declared; an element without a private name changes nothing |
| SemanticResolver.PrivateAccessorPairs | lib/Sema/SemanticResolver.cpp:2047-2073 | a getter and a setter with the same static-ness pair up without error; with different static-ness the second is refused; a third declaration is a duplicate |
| SemanticResolver.CollectDeclaredPrivateIdentifiers | lib/Sema/SemanticResolver.cpp:1976-2075 | the loop over the class body computes `PrivateFold` of all elements |
| SemanticResolver.ExtractDeclaredIdentsFromID | lib/Sema/SemanticResolver.cpp:2168-2218 | the bound identifiers are appended left to right, including those under a Flow component parameter; the result says whether the pattern holds a default (`AssignmentPattern`); and one "invalid destructuring target" error is reported for each node of any other kind, nested or not |
| SemanticResolver.ArrayPatternConcat | lib/Sema/SemanticResolver.cpp:2186-2200 | an array pattern binds its elements' names in order, holds a default iff some element does, and reports as many invalid targets as its elements together |
| SemanticResolver.IsLValueMeaning | lib/Sema/SemanticResolver.cpp:2528-2568 | member expressions are always l-values and only members and identifiers can be; strict code never assigns 'arguments' or 'eval'; outside test262 mode a non-reassignable binding never is; an ordinary reassignable binding is |
| SemanticResolver.LabelContext.constructor | lib/Sema/SemanticResolver.cpp:38-61 | a resolver starts with no label in scope, no enclosing loop or switch and no error |
| SemanticResolver.LabelContext.EnterLabel | lib/Sema/SemanticResolver.cpp:609-650 | a new label maps to the loop its label chain leads to, or to itself; a label already in scope is a duplicate-label error and is not redefined |
| SemanticResolver.LabelContext.ExitLabel | lib/Sema/SemanticResolver.cpp:641-646 | leaving a labeled statement erases the label only if it was inserted there |
| SemanticResolver.LabelContext.EnterLoop | lib/Sema/SemanticResolver.cpp:668-728 | a loop becomes both the current loop and the current loop-or-switch, and the previous ones are returned for restoring |
| SemanticResolver.LabelContext.EnterSwitch | lib/Sema/SemanticResolver.cpp:668-694 | a switch becomes the current loop-or-switch only |
| SemanticResolver.LabelContext.Restore | lib/Sema/SemanticResolver.cpp:668-728 | leaving a loop or switch restores the saved targets |
| SemanticResolver.LabelContext.Break | lib/Sema/SemanticResolver.cpp:668-694 | a labeled break targets its label's statement or reports an undefined label; an unlabeled break targets the innermost loop or switch or reports one outside any |
| SemanticResolver.LabelContext.Continue | lib/Sema/SemanticResolver.cpp:696-728 | a labeled continue needs a loop label (else a not-a-loop-label error) or reports an undefined label; an unlabeled continue targets the innermost loop or reports one outside any |
| SemanticResolver.LabeledLoopMeaning | lib/Sema/SemanticResolver.cpp:613-622 | a label on a loop, directly or through other labels, targets that loop; a label on anything else targets itself |
| IREval.TruthinessMeaning | lib/IR/IREval.cpp:606-629 | null and undefined are false, a bool is itself, a number is true iff neither NaN nor zero, a string iff non-empty; other literals give no answer; `evalIsTrue` and `evalIsFalse` (683-694) never both hold and neither holds without an answer |
| IREval.EvalToNumber | lib/IR/IREval.cpp:642-656 | numbers convert to themselves, bools to 0 or 1, undefined to NaN, null to +0, and nothing else converts |
| IREval.ToUint32 | lib/IR/IREval.cpp:446-456 | the uint32 truncation used by the shifts lies in [0, 2^32) |
| IREval.ToInt32 | lib/IR/IREval.cpp:446-456 | the int32 truncation lies in [-2^31, 2^31) |
| IREval.ShiftRanges | lib/IR/IREval.cpp:436-458 | `<<` and `>>` fold to int32 values and `>>>` to a uint32 value |
| IREval.NaNComparisons | lib/IR/IREval.cpp:155-177 | with a NaN operand `==`, `===`, `<`, `<=`, `>`, `>=` fold to false and `!=`, `!==` to true |
| IREval.LooseEqualityNullish | lib/IR/IREval.cpp:235-265 | identical non-NaN literals are `==`; with null or undefined on a side, `==` holds iff both sides are null or undefined |
| IREval.LooseEqualitySymmetric | lib/IR/IREval.cpp:235-265 | `a == b` folds to the same answer as `b == a` |
| IREval.NotEqualIsNegation | lib/IR/IREval.cpp:235-297 | `!=` folds exactly when `==` does, to the negated answer |
| IREval.StrictEqualityMeaning | lib/IR/IREval.cpp:299-328 | identical non-NaN literals are `===`; literals of disjoint types (21-27) are not |
| IREval.StrictNotEqualAgrees | lib/IR/IREval.cpp:299-355 | where `!==` folds, `===` folds to the opposite answer; `!==` leaves `null !== undefined` unfolded although `===` folds it to false |
| IREval.ShiftDispatch | lib/IR/IREval.cpp:179-183 | a NaN operand of a shift falls through to the shift case rather than folding early |
| IREval.ShiftFolding | lib/IR/IREval.cpp:436-458 | shifts fold exactly when both operands convert to numbers, and only the low five bits of the count matter |
| IREval.StringConcatenation | lib/IR/IREval.cpp:185-205 | string + string is their concatenation; null, undefined and NaN beside a string are spelled "null", "undefined", "NaN" (467-520) |
| IREval.EvalIsTrue | lib/IR/IREval.cpp:683-693 | `evalIsTrue` holds for a true bool, a number other than NaN and zero, and a non-empty string; null and undefined are false; never both `evalIsTrue` and `evalIsFalse`; bigints and other literals get no answer |
| IREval.EvalIsFalse | lib/IR/IREval.cpp:683-693 | `evalIsFalse` holds for a false bool, NaN or zero, the empty string, null and undefined, and never together with `evalIsTrue` |
| IREval.ShiftRightBounds | lib/IR/IREval.cpp:446-456 | an arithmetic right shift keeps a value inside any range around zero that held it, so `>>` of an int32 stays an int32 |
| IREval.TypeOf | lib/IR/IREval.cpp:21-27 | every literal except the unknown kinds has a primitive type, which `disjointComparisonTypes` compares (StrictEqualityMeaning uses it) |
| IREval.EvalToBoolean | lib/IR/IREval.cpp:606-629 | the conversion gives no answer exactly for bigints and literal kinds it does not know; TruthinessMeaning states the answers |
| IREval.EvalBinary | lib/IR/IREval.cpp:135-604 | a fold of one of the eight comparisons is a bool and a fold of any other operator is not; an unknown operator never folds; the case-by-case meaning is stated by NaNComparisons, LooseEqualityNullish, StrictEqualityMeaning, ShiftFolding, StringConcatenation and BitwiseFolds |
| IREval.BitwiseFolds | lib/IR/IREval.cpp:575-597 | bitwise or, xor and and fold exactly when both operands are numbers, NaN included, to the int32 result of the operation on both operands' int32 truncations, independent of the IEEE-754 parameter |
| IREval.BitwiseCommutes | lib/IR/IREval.cpp:575-597 | the bitwise folds give int32 values and do not depend on the operand order |
| IREval.BitwiseSelf | lib/IR/IREval.cpp:575-597 | `x & x` equals the bitwise or of `x` with itself, while `x ^ x` and `x & 0` fold to 0 |
| IREval.BitwiseOrZero | lib/IR/IREval.cpp:575-580 | or-ing a number with 0 folds to its int32 truncation, the result of truncateToInt32 |
| SimplifyCfg.StrictEqualityProperties | lib/Optimizer/Scalar/SimplifyCFG.cpp:208-214 | literalStrictEquality is symmetric; a literal equals itself unless it is NaN; non-numbers are equal iff identical; whenever it holds, constant folding of `===` also gives true |
| SimplifyCfg.EvalValueToBoolean | lib/IR/IREval.cpp:668-681 | a literal operand has its truthiness; another value is true iff its type is object and false iff its type is null or undefined |
| SimplifyCfg.RemoveFirstFromMeaning | lib/Optimizer/Scalar/SimplifyCFG.cpp:35-51 | removing a phi's first entry from `edge` drops exactly that entry: entries from other blocks keep their order, and one entry from `edge` goes if there was one |
| SimplifyCfg.RemovePhiEntry | lib/Optimizer/Scalar/SimplifyCFG.cpp:42-49 | the scan over one phi's entries removes the first entry from `edge` and nothing else |
| SimplifyCfg.RemoveEntryFromPhi | lib/Optimizer/Scalar/SimplifyCFG.cpp:35-51 | every phi of the block loses its first entry from `edge`; other instructions and the block's length stay |
| SimplifyCfg.NotFromMeaning | lib/Optimizer/Scalar/SimplifyCFG.cpp:243-250 | deleting a block's incoming entries leaves no entry from it, and the entries from every other block as they were |
| SimplifyCfg.NotFromIdempotent | lib/Optimizer/Scalar/SimplifyCFG.cpp:243-250 | deleting the entries from a block twice is deleting them once |
| SimplifyCfg.EditInstMeaning | lib/Optimizer/Scalar/SimplifyCFG.cpp:35-51 | editing a phi for `edge` changes only its entries from `edge` |
| SimplifyCfg.SwitchTargetFirstMatch | lib/Optimizer/Scalar/SimplifyCFG.cpp:233-241 | the switch goes to the first case whose value is strictly equal to the input |
| SimplifyCfg.SwitchTargetIsSuccessor | lib/Optimizer/Scalar/SimplifyCFG.cpp:231-241 | the destination chosen for a switch on a literal is always one of the switch's successors |
| SimplifyCfg.SwitchTargetNoMatch | lib/Optimizer/Scalar/SimplifyCFG.cpp:231-241 | with no matching case the switch goes to its default destination |
| SimplifyCfg.FindSwitchDestination | lib/Optimizer/Scalar/SimplifyCFG.cpp:231-241 | the scan of the cases computes that target |
| SimplifyCfg.FoldTarget | lib/Optimizer/Scalar/SimplifyCFG.cpp:264-309 | a branch has a known target exactly for a switch on a literal, and for a conditional branch whose two targets agree or whose condition has a known truth value; the target is one of its successors |
| SimplifyCfg.StaticFold | lib/Optimizer/Scalar/SimplifyCFG.cpp:264-309 | a folded terminator stays a terminator; a branch without a known target is unchanged; one with a known target becomes a direct branch to one of its successors, which has nothing further to fold |
| SimplifyCfg.EditForMeaning | lib/Optimizer/Scalar/SimplifyCFG.cpp:55-71 | folding a branch removes phi entries only from abandoned successors (all entries after a switch, the first after a conditional branch); the target and non-successors keep theirs |
| SimplifyCfg.ReplaceCondBranchWithDirectBranch | lib/Optimizer/Scalar/SimplifyCFG.cpp:55-71 | the conditional branch becomes a direct branch to `dest`, each other target loses its first phi entry from the block, and the function stays well formed |
| SimplifyCfg.DropCondEntries | lib/Optimizer/Scalar/SimplifyCFG.cpp:55-71 | the phi edits of `replaceCondBranchWithDirectBranch`: each target of the conditional branch other than `dest` loses its first entry from the block, and no block is added or removed |
| SimplifyCfg.DeleteIncomingFromSuccessors | lib/Optimizer/Scalar/SimplifyCFG.cpp:243-250 | every successor other than the destination loses all its phi entries from the block; nothing else changes |
| SimplifyCfg.DeleteIncomingBlockFromPhis | lib/Optimizer/Scalar/SimplifyCFG.cpp:243-250 | `deleteIncomingBlockFromPhis` removes every entry from the block in each phi of the successor, position by position |
| SimplifyCfg.SimplifySwitchInst | lib/Optimizer/Scalar/SimplifyCFG.cpp:218-256 | a switch on a literal becomes a direct branch to its target and reports a change; any other switch is left alone and reports none |
| SimplifyCfg.FoldBranch | lib/Optimizer/Scalar/SimplifyCFG.cpp:264-308 | one block of the first loop: the block changes iff its branch has a known target, and then only as folding says |
| SimplifyCfg.FoldNext | lib/Optimizer/Scalar/SimplifyCFG.cpp:263-309 | one iteration of the first loop extends the folded prefix by the next block and keeps the change flag equal to "some folded block had a known target" |
| SimplifyCfg.FoldStaticBranches | lib/Optimizer/Scalar/SimplifyCFG.cpp:263-309 | after the first loop every block's branch is folded, the function is well formed and closed, and it reports a change iff some branch had a known target |
| SimplifyCfg.ReplaceAllUsesOfBlock | lib/Optimizer/Scalar/SimplifyCFG.cpp:200 | BasicBlock::replaceAllUsesWith renames the block in every instruction and keeps the block list |
| SimplifyCfg.ReplaceUsesMeaning | lib/Optimizer/Scalar/SimplifyCFG.cpp:200 | renaming keeps an instruction's kind and renames exactly its block operands and successors |
| SimplifyCfg.ReplaceAllUsesMeaning | lib/Optimizer/Scalar/SimplifyCFG.cpp:200 | after the renaming nothing names the old block, the function stays well formed, and branch targets stay blocks when the new one is |
| SimplifyCfg.PredCountInZero | lib/Optimizer/Scalar/SimplifyCFG.cpp:344-354 | pred_count is zero iff no terminator branches to the block |
| SimplifyCfg.RedirectLeavesNoPredecessors | lib/Optimizer/Scalar/SimplifyCFG.cpp:344-350 | after redirecting its uses a block has no predecessor left (the assert at 349) |
| SimplifyCfg.EraseBlock | lib/Optimizer/Scalar/SimplifyCFG.cpp:201 | eraseFromParent removes the block from the function's list and map |
| SimplifyCfg.EraseUnusedBlock | lib/Optimizer/Scalar/SimplifyCFG.cpp:201 | erasing a block nothing names keeps the function well formed and closed |
| SimplifyCfg.SlurpInstructions | lib/Optimizer/Scalar/SimplifyCFG.cpp:354-360 | the instructions of `dest` move, in order, to replace the branch of the block |
| SimplifyCfg.MergeBlocks | lib/Optimizer/Scalar/SimplifyCFG.cpp:354-370 | merging with the only successor: the block holds its own code then `dest`'s, uses of `dest` name the block, `dest` is erased, and the function stays well formed and closed |
| SimplifyCfg.CollectParents | lib/Optimizer/Scalar/SimplifyCFG.cpp:86-109 | the scan collects the distinct blocks jumping to the block, in block order |
| SimplifyCfg.ParentsIn | lib/Optimizer/Scalar/SimplifyCFG.cpp:86-109 | the parents are exactly the listed blocks that hold a jump to the block |
| SimplifyCfg.IncomingValue | lib/Optimizer/Scalar/SimplifyCFG.cpp:176-183 | the value taken is the one from the last entry from the block |
| SimplifyCfg.StripEntries | lib/Optimizer/Scalar/SimplifyCFG.cpp:185-190 | the backwards loop drops exactly the entries from the block or a parent, keeping the others in order |
| SimplifyCfg.AddParentEntries | lib/Optimizer/Scalar/SimplifyCFG.cpp:192-195 | one entry with the incoming value is added per parent, in the parents' order |
| SimplifyCfg.RewirePhis | lib/Optimizer/Scalar/SimplifyCFG.cpp:171-197 | every phi of the phi block is rewired as RewirePhi says |
| SimplifyCfg.RewirePhiMeaning | lib/Optimizer/Scalar/SimplifyCFG.cpp:171-197 | the rewired phi has no entry from the block, one entry per parent carrying the value that came through the block, and its other entries unchanged |
| SimplifyCfg.NoConflictKeepsValues | lib/Optimizer/Scalar/SimplifyCFG.cpp:143-165 | when the pass proceeds, every old entry from a parent already carried the value coming through the block |
| SimplifyCfg.AttemptBranchRemovalFromPhiNodes | lib/Optimizer/Scalar/SimplifyCFG.cpp:74-203 | the block is removed iff it is a lone direct branch, used only by jumps and phis, with a parent and no conflicting phi entry; then nothing names it, the function stays well formed and closed, and its phis are rewired |
| SimplifyCfg.RemovedPhiMeaning | lib/Optimizer/Scalar/SimplifyCFG.cpp:171-203 | in the function after removal, each phi that used the block has no entry from it, one entry per parent with the value that came through it, and its other entries unchanged |
| SimplifyCfg.RedirectKeepsPhis | lib/Optimizer/Scalar/SimplifyCFG.cpp:344-350 | bypassing a block no phi uses leaves every phi unchanged |
| SimplifyCfg.TrampolineStep | lib/Optimizer/Scalar/SimplifyCFG.cpp:315-371 | one block of the second loop: skipped, phi-rewired, redirected or merged as its shape says, keeping the function well formed and closed |
| SimplifyCfg.RemoveTrampolines | lib/Optimizer/Scalar/SimplifyCFG.cpp:311-372 | the second loop visits the blocks in order and stops after the first removal or merge; it reports a change iff some block had an action, and never adds a block |
| SimplifyCfg.OptimizeStaticBranches | lib/Optimizer/Scalar/SimplifyCFG.cpp:259-375 | both loops together keep the function well formed and closed and add no block; a known branch outcome always counts as a change; with none, the result is the trampoline loop's |
| LoadConstants.RoleOperandFirst | lib/BCGen/SH/LoadConstants.cpp:56-64 | the operand looked up by its role (the property, the enumerable flag) is the one in the first slot with that role, and none when no slot has it |
| LoadConstants.AllLiteralKindsKeepLiterals | lib/BCGen/SH/LoadConstants.cpp:18-34 | HBCLoadConst, LoadParam, HBCAllocObjectFromBuffer, AllocArray, AllocFastArray and CreateRegExp keep every literal operand (see also lines 115-116) |
| LoadConstants.SwitchKeepsCases | lib/BCGen/SH/LoadConstants.cpp:39-42 | a switch keeps exactly its case values, every operand after the first, and has its input lowered |
| LoadConstants.DefinePropertyRule | lib/BCGen/SH/LoadConstants.cpp:44-72 | a define keeps an operand iff it is the enumerable flag, or the property of a DefineNewOwnProperty, or an enumerable definition's property that is a string or a valid array index |
| LoadConstants.PropertyAccessRule | lib/BCGen/SH/LoadConstants.cpp:74-102 | a store or load keeps an operand iff it is a string property (not for the store with a receiver), the receiver store's strictness flag, or a LoadProperty's array-index property |
| LoadConstants.CallRule | lib/BCGen/SH/LoadConstants.cpp:187-203 | a call keeps an operand iff it is the always-a-closure flag or, for a metro require, the operand after `this` |
| LoadConstants.OtherKindsKeepNothing | lib/BCGen/SH/LoadConstants.cpp:205-206 | an instruction no rule names has every literal operand lowered |
| LoadConstants.PlainOperandsLowered | lib/BCGen/SH/LoadConstants.cpp:17-206 | an operand in an ordinary slot is lowered unless its instruction keeps all, or all later, operands |
| LoadConstants.LoadInst | lib/BCGen/SH/LoadConstants.cpp:214-219 | `createLoadLiteral` makes HBCGetGlobalObject for the global object and HBCLoadConst of the literal otherwise, under the new load's id |
| LoadConstants.LoadsNeedNothing | lib/BCGen/SH/LoadConstants.cpp:18-20 | an inserted load never needs a load of its own, so the inner loops never revisit their own work (see also lines 214-219) |
| LoadConstants.FlattenContents | lib/BCGen/SH/LoadConstants.cpp:221-251 | a block after the pass holds exactly its original instructions and the loads inserted into it |
| LoadConstants.EmitKeepsTerminators | lib/BCGen/SH/LoadConstants.cpp:231 | loads go before an instruction or before the terminator, so every block still ends with its own terminator (see also line 245) |
| LoadConstants.LowerOperands | lib/BCGen/SH/LoadConstants.cpp:240-249 | each literal operand `operandMustBeLiteral` lets go is replaced by a fresh load placed, in order, before the instruction, everything else is kept, and loads are made iff the instruction needs one |
| LoadConstants.LowerPhi | lib/BCGen/SH/LoadConstants.cpp:223-235 | every literal phi entry gets its own load before the terminator of the entry's incoming block and now refers to it; other entries stay; a load is made iff some entry is a literal |
| LoadConstants.LowerInstAt | lib/BCGen/SH/LoadConstants.cpp:222-250 | one instruction of the block loop is lowered as a phi or as an ordinary instruction, and reports a load iff it needed one |
| LoadConstants.LowerBlock | lib/BCGen/SH/LoadConstants.cpp:222-250 | every instruction of the block ends up lowered, loads are only added, other blocks' code is untouched, and the block reports a change iff one of its instructions needed a load |
| LoadConstants.LoadConstantsPass | lib/BCGen/SH/LoadConstants.cpp:209-254 | every block is lowered with fresh loads, the result is the emitted layout, and `changed` holds iff some instruction needed a load |
| LoadConstants.EnumerableKeptByLowering | lib/BCGen/SH/LoadConstants.cpp:55-69 | the enumerable flag of a define is never lowered, so deciding on the partly rewritten instruction reads the same flag |
| LoadConstants.OpLoweredNeedsNothing | lib/BCGen/SH/LoadConstants.cpp:240-249 | a lowered instruction holds only literals `operandMustBeLiteral` keeps |
| LoadConstants.PhiLoweredNeedsNothing | lib/BCGen/SH/LoadConstants.cpp:223-235 | a lowered phi holds no literal entry |
| LoadConstants.LoweredNeedsNothing | lib/BCGen/SH/LoadConstants.cpp:209-254 | after the pass no instruction, original or inserted, needs a load: a second run would report no change |
| StackPromotion.StoreOnceValue | lib/Optimizer/Scalar/SimpleStackPromotion.cpp:28-32 | a single stored value exists only when every user is a frame load or a store of that value, and some store exists |
| StackPromotion.ConstRewriteMeaning | lib/Optimizer/Scalar/SimpleStackPromotion.cpp:34-50 | constant promotion creates no slot or stack access, destroys every user, and makes exactly the loads read the stored literal |
| StackPromotion.TryPromoteConstVariable | lib/Optimizer/Scalar/SimpleStackPromotion.cpp:27-51 | the variable is promoted iff its single stored value is a literal, and then with exactly the constant rewrite; otherwise nothing changes |
| StackPromotion.SlotIndex | lib/Optimizer/Scalar/SimpleStackPromotion.cpp:88-92 | the slot found for a key is the first slot with that key, or none |
| StackPromotion.WithSlot | lib/Optimizer/Scalar/SimpleStackPromotion.cpp:88-92 | after a lookup-or-create the key has a slot and no slot was lost |
| StackPromotion.WithSlotKeyed | lib/Optimizer/Scalar/SimpleStackPromotion.cpp:88-92 | a lookup-or-create keeps keys unique, adds exactly the looked-up key, keeps every earlier slot where it was, and appends at most the new slot (see also lines 191-195) |
| StackPromotion.Redirect | lib/Optimizer/Scalar/SimpleStackPromotion.cpp:93-98 | replacing an instruction appends one stack access, destroys the instruction and sends its uses to the new access |
| StackPromotion.AllocStep | lib/Optimizer/Scalar/SimpleStackPromotion.cpp:88-92 | one update of the `allocs` map agrees with the slot list: the looked-up key maps to its slot's index (see also lines 191-195) |
| StackPromotion.AllocsEmpty | lib/Optimizer/Scalar/SimpleStackPromotion.cpp:104-105 | `allocs.empty()` holds iff no slot was created |
| StackPromotion.TryCopyToStack | lib/Optimizer/Scalar/SimpleStackPromotion.cpp:59-121 | the method's result and edits are `CopyToStack`, whose meaning the lemmas below state |
| StackPromotion.ReplaceDirectLoads | lib/Optimizer/Scalar/SimpleStackPromotion.cpp:82-102 | the first loop computes the load rewrites `CopyLoads` and keeps `allocs` in step with the slots |
| StackPromotion.ReplaceDirectLoad | lib/Optimizer/Scalar/SimpleStackPromotion.cpp:83-101 | one user of the first loop extends the rewrites by that user |
| StackPromotion.DuplicateStores | lib/Optimizer/Scalar/SimpleStackPromotion.cpp:107-118 | the second loop computes the store duplicates `CopyStores` |
| StackPromotion.CopyLoadsSlots | lib/Optimizer/Scalar/SimpleStackPromotion.cpp:85-92 | tryCopyToStack creates exactly one slot per scope read by a direct load, each for the variable |
| StackPromotion.CopyLoadsOps | lib/Optimizer/Scalar/SimpleStackPromotion.cpp:85-101 | exactly the direct loads are destroyed, in order, each with one new stack load of its scope's slot inserted before it, and nothing else is redirected |
| StackPromotion.CopyLoadsDestroyed | lib/Optimizer/Scalar/SimpleStackPromotion.cpp:85-101 | the first loop destroys exactly the direct loads, one new access and one redirection each |
| StackPromotion.CopyLoadsNothing | lib/Optimizer/Scalar/SimpleStackPromotion.cpp:85-105 | without a direct load the first loop changes nothing |
| StackPromotion.CopyLoadRedirected | lib/Optimizer/Scalar/SimpleStackPromotion.cpp:93-98 | each direct load's uses go to a new load of its scope's slot |
| StackPromotion.CopyStoresKeeps | lib/Optimizer/Scalar/SimpleStackPromotion.cpp:107-118 | the second loop only appends store duplicates: slots, redirections and destroyed instructions stay |
| StackPromotion.CopyStoreDuplicated | lib/Optimizer/Scalar/SimpleStackPromotion.cpp:110-117 | a store whose scope has a slot is duplicated, with the same value, into that slot |
| StackPromotion.CopyStoresSources | lib/Optimizer/Scalar/SimpleStackPromotion.cpp:110-117 | every duplicate comes from a store whose scope has a slot and writes that store's value into it |
| StackPromotion.CopyToStackFires | lib/Optimizer/Scalar/SimpleStackPromotion.cpp:59-121 | tryCopyToStack reports a change iff no store goes through a scope that is not a CreateScopeInst and some load reads straight from one; when it reports none it made no edit |
| StackPromotion.TryDeleteStoreOnlyVariable | lib/Optimizer/Scalar/SimpleStackPromotion.cpp:125-139 | the loop gives up without users or at a user that is not a store; otherwise every user, all stores, is destroyed |
| StackPromotion.RunOnVariable | lib/Optimizer/Scalar/SimpleStackPromotion.cpp:142-160 | a constant promotion ends the work; otherwise the stack copy runs, then the store-only deletion on the users the copy left, and the change flags are or-ed |
| StackPromotion.StoresRemain | lib/Optimizer/Scalar/SimpleStackPromotion.cpp:149-158 | when every user is a direct load or a store, the users the copy leaves are exactly the stores |
| StackPromotion.CopyDestroysDirectLoads | lib/Optimizer/Scalar/SimpleStackPromotion.cpp:59-121 | a copy that fires destroys exactly the direct loads |
| StackPromotion.CopyThenDeleteRemovesAll | lib/Optimizer/Scalar/SimpleStackPromotion.cpp:142-160 | when every load reads straight from its CreateScopeInst and the stores are not a single literal, the copy removes all loads and the deletion all stores: no user survives |
| StackPromotion.RunOnCreateScope | lib/Optimizer/Scalar/SimpleStackPromotion.cpp:164-209 | the result and edits are `PromoteScope`: nothing when a user could let the scope escape, else every frame access rewritten and the scope destroyed |
| StackPromotion.RedirectScopeUsers | lib/Optimizer/Scalar/SimpleStackPromotion.cpp:185-206 | the rewriting loop computes `ScopeRewrite` |
| StackPromotion.RedirectScopeUser | lib/Optimizer/Scalar/SimpleStackPromotion.cpp:186-205 | one user of the rewriting loop extends the rewrite by that user |
| StackPromotion.ScopeSlots | lib/Optimizer/Scalar/SimpleStackPromotion.cpp:188-197 | a promoted scope gets exactly one slot per variable accessed through it, each placed at the scope |
| StackPromotion.ScopeOps | lib/Optimizer/Scalar/SimpleStackPromotion.cpp:186-205 | every user of a promoted scope is destroyed, in order, and replaced by a stack access of the same kind on its variable's slot |
| StackPromotion.ScopeOpsCount | lib/Optimizer/Scalar/SimpleStackPromotion.cpp:186-205 | one stack access per user |
| StackPromotion.ScopeReplaced | lib/Optimizer/Scalar/SimpleStackPromotion.cpp:186-205 | with distinct users, each user is replaced by its own stack access (the k-th by the k-th), and no other instruction is |
| TdzDedup.BlockTdzMeaning | lib/Optimizer/Scalar/TDZDedup.cpp:87-104 | a block contributes exactly the storage whose frame or stack loads feed one of its ThrowIfs |
| TdzDedup.TdzStorageMeaning | lib/Optimizer/Scalar/TDZDedup.cpp:84-105 | the TDZ state is exactly the variables and stack slots whose loads feed some ThrowIf of the function |
| TdzDedup.SetTop | lib/Optimizer/Scalar/TDZDedup.cpp:142 | `setInCurrentScope` changes only the innermost scope (see also lines 152, 162) |
| TdzDedup.LookupSetTop | lib/Optimizer/Scalar/TDZDedup.cpp:142 | after setting a key in the current scope, lookup finds the new value for it and the old answer for every other key (see also lines 161-162) |
| TdzDedup.LookupPush | lib/Optimizer/Scalar/TDZDedup.cpp:81-82 | opening a scope for a dominator-tree node hides nothing |
| TdzDedup.ScopedTable.Push | lib/Optimizer/Scalar/TDZDedup.cpp:81-82 | a new, empty innermost scope is added |
| TdzDedup.ScopedTable.Pop | lib/Optimizer/Scalar/TDZDedup.cpp:39-41 | leaving a node drops exactly its scope, with every fact set in it |
| TdzDedup.ScopedTable.SetInCurrentScope | lib/Optimizer/Scalar/TDZDedup.cpp:142 | the key is set in the innermost scope only (see also lines 152, 162) |
| TdzDedup.Removed | lib/Optimizer/Scalar/TDZDedup.cpp:172-183 | a deleted ThrowIf is destroyed first, before its load |
| TdzDedup.Process | lib/Optimizer/Scalar/TDZDedup.cpp:120-191 | an instruction that decides no TDZ storage leaves the table alone; one that does sets only its storage, to non-empty for a check or non-empty store and to possibly-empty otherwise, in the current scope; a ThrowIf is deleted iff its storage was known non-empty, and only a deleted ThrowIf narrows |
| TdzDedup.BlockRun | lib/Optimizer/Scalar/TDZDedup.cpp:120-191 | running a block's instructions changes only the innermost scope |
| TdzDedup.KnownMeaning | lib/Optimizer/Scalar/TDZDedup.cpp:134-164 | storage is known non-empty exactly when some check or non-empty store of it on the path is followed by no later store or check of it that decides it again |
| TdzDedup.RedundantCheckRemoved | lib/Optimizer/Scalar/TDZDedup.cpp:159-191 | a ThrowIf is deleted iff a check or non-empty store of its storage earlier on its dominator path is not overridden; it is destroyed first, its users go to a narrowing cast iff it has users, and its load goes too iff it has none and the load is a frame or stack load with a single user |
| TdzDedup.ProcessTracks | lib/Optimizer/Scalar/TDZDedup.cpp:120-191 | when the scoped table represents the dominator path so far, one instruction keeps it representing the path extended by that instruction and deletes what the path reference deletes |
| TdzDedup.BlockTracks | lib/Optimizer/Scalar/TDZDedup.cpp:120-191 | the same for a whole block |
| TdzDedup.WalkMatches | lib/Optimizer/Scalar/TDZDedup.cpp:34-42 | the scoped-table walk of a dominator subtree deletes exactly what the dominator-path reference deletes (see also lines 81-82, 107, 110-194) |
| TdzDedup.WalkAllMatches | lib/Optimizer/Scalar/TDZDedup.cpp:34-42 | the same for a list of sibling subtrees, each walked from the same table (see also lines 81-82, 107) |
| TdzDedup.BlockRunChanged | lib/Optimizer/Scalar/TDZDedup.cpp:172-190 | a block that deletes nothing narrows nothing |
| TdzDedup.TdzDedupContext.constructor | lib/Optimizer/Scalar/TDZDedup.cpp:48-51 | the context starts with no TDZ state, an empty table and no edit |
| TdzDedup.TdzDedupContext.Run | lib/Optimizer/Scalar/TDZDedup.cpp:84-108 | `run` collects exactly the TDZ storage, then walks the dominator tree from an empty table, makes the walk's edits and reports a change iff something was deleted |
| TdzDedup.TdzDedupContext.Visit | lib/Optimizer/Scalar/TDZDedup.cpp:34-42 | a node's visit opens a scope, processes the block and the children, and leaves the table as it found it (see also lines 81-82) |
| TdzDedup.TdzDedupContext.VisitChildren | lib/Optimizer/Scalar/TDZDedup.cpp:34-42 | the children are visited in order, each from the same table |
| TdzDedup.TdzDedupContext.ProcessNode | lib/Optimizer/Scalar/TDZDedup.cpp:110-194 | `processNode` makes the block's edits and reports a change iff it deleted a ThrowIf |
| TdzDedup.TdzDedupContext.ProcessInst | lib/Optimizer/Scalar/TDZDedup.cpp:121-190 | one loop iteration makes that instruction's edits and reports whether it deleted it |
| TdzDedup.RunOnFunction | lib/Optimizer/Scalar/TDZDedup.cpp:204-208 | the pass deletes exactly the ThrowIfs and loads the dominator-path reference deletes, narrows their users, and reports a change iff it deleted something |
| TdzDedup.ScopedTable.constructor | lib/Optimizer/Scalar/TDZDedup.cpp:26-27 | the scoped table starts with no scope open |
| HoistStartGenerator.Function.constructor | lib/Optimizer/Scalar/HoistStartGenerator.cpp:16 | a function holds its blocks and whether it is an inner generator |
| HoistStartGenerator.FindIn | lib/Optimizer/Scalar/HoistStartGenerator.cpp:26-27 | the scan of a block finds its first StartGenerator, and none when it holds none |
| HoistStartGenerator.FindStart | lib/Optimizer/Scalar/HoistStartGenerator.cpp:25-34 | a found position holds a StartGenerator; FindStartMeaning shows it is the first one, and that none is found iff there is none |
| HoistStartGenerator.FindStartMeaning | lib/Optimizer/Scalar/HoistStartGenerator.cpp:25-34 | the scan over the blocks in order finds exactly the first StartGenerator, and nothing iff the function has none |
| HoistStartGenerator.FirstStartUnique | lib/Optimizer/Scalar/HoistStartGenerator.cpp:25-34 | there is only one first StartGenerator position |
| HoistStartGenerator.Erase | lib/Optimizer/Scalar/HoistStartGenerator.cpp:28 | taking an instruction out of a block shifts the later ones down and leaves every other block alone |
| HoistStartGenerator.MoveToEntryFront | lib/Optimizer/Scalar/HoistStartGenerator.cpp:28 | the moved instruction heads the entry block, which grows by one unless it was already there, and every other block but the source block is unchanged |
| HoistStartGenerator.MoveKeepsOthers | lib/Optimizer/Scalar/HoistStartGenerator.cpp:28 | after `moveBefore` the moved instruction heads the entry block, and apart from it every instruction stays in its block and relative order |
| HoistStartGenerator.Hoisted | lib/Optimizer/Scalar/HoistStartGenerator.cpp:16-37 | with generators lowered or outside an inner generator the pass changes nothing and returns false; otherwise it returns true iff a StartGenerator exists, then moves exactly the first one, and otherwise leaves the blocks alone |
| HoistStartGenerator.RunOnFunction | lib/Optimizer/Scalar/HoistStartGenerator.cpp:16-37 | the method's flag and new blocks are those of `Hoisted` on the blocks before the call |
| Auditor.CalleeOf | lib/Optimizer/Scalar/Auditor.cpp:63-89 | the callee falls back to `CallsOther` exactly when its kind is none of the seven named ones |
| Auditor.TypeOf | lib/Optimizer/Scalar/Auditor.cpp:98-117 | an instruction counts under `TypeAny` iff its type includes every primitive type, and under `TypeOther` iff it is none of the six single types and not any |
| Auditor.CalleeCategoriesPartition | lib/Optimizer/Scalar/Auditor.cpp:57-89 | in a block every call is counted in exactly one callee category: the categories add up to `Calls` |
| Auditor.TypeCategoriesPartition | lib/Optimizer/Scalar/Auditor.cpp:97-118 | in a block every instruction is counted in exactly one type category |
| Auditor.FunctionPartition | lib/Optimizer/Scalar/Auditor.cpp:54-120 | over a function the eight callee counters add up to the calls and the eight type counters to the instructions |
| Auditor.Statistics.constructor | lib/Optimizer/Scalar/Auditor.cpp:20-52 | every statistic starts at zero |
| Auditor.Statistics.AuditCall | lib/Optimizer/Scalar/Auditor.cpp:57-90 | a call raises `Calls` and its callee's category by one; any other instruction changes nothing; type counters are untouched |
| Auditor.Statistics.AuditCallInstructions | lib/Optimizer/Scalar/Auditor.cpp:54-93 | `Calls` grows by the calls of the function and each callee counter by the calls in its category |
| Auditor.Statistics.AuditType | lib/Optimizer/Scalar/Auditor.cpp:98-117 | an instruction raises the counter of its type category by one and nothing else |
| Auditor.Statistics.AuditInferredTypes | lib/Optimizer/Scalar/Auditor.cpp:95-120 | each type counter grows by the instructions of the function in its category; call counters are untouched |
| Auditor.Statistics.RunOnFunction | lib/Optimizer/Scalar/Auditor.cpp:122-136 | both audits run, `Functions` grows by one and the pass reports no change |
| IrGen.ExtraKeysDistinct | lib/IRGen/ESTreeIRGen.h:482-491 | two extra keys name the same compiled entry of a node exactly when their codes agree, so Normal, GeneratorOuter and AsyncOuter never collide (the class-like keys share their codes) |
| IrGen.Find | lib/IRGen/ESTreeIRGen.h:1536-1543 | `findCompiledEntity` returns the value stored under the node and extra key, and nothing iff none is stored |
| IrGen.FindAfterEnqueue | lib/IRGen/ESTreeIRGen.h:1536-1561 | after an entity is stored under a key it is found there, and every other key answers as before |
| IrGen.Compilation.constructor | lib/IRGen/ESTreeIRGen.h:1536-1561 | no entity is compiled and no compilation is queued at the start |
| IrGen.Compilation.EnqueueCompilation | lib/IRGen/ESTreeIRGen.h:1554-1561 | for a key not yet used (the assert at 1558) the value is recorded under it, the compilation is queued last, and `findCompiledEntity` now finds the value |
| IrGen.FunctionContext.constructor | lib/IRGen/ESTreeIRGen.h:131 | a new function context has one uninitialized label per label of the function, no surrounding try, and the given scope (see also lines 234-238) |
| IrGen.FunctionContext.InitLabel | lib/IRGen/ESTreeIRGen.h:271-279 | `initLabel` sets exactly that label's break and continue targets and the current surrounding try, changing nothing else |
| IrGen.InitLabelReadable | lib/IRGen/ESTreeIRGen.h:271-292 | after `initLabel` the label passes the assert of `label()` iff a break or continue target was given, holds what was given, and every other label is unchanged |
| IrGen.SurroundingTry.constructor | lib/IRGen/ESTreeIRGen.h:324-342 | a new try record remembers the previous surrounding try as `outer` and the current scope, and becomes the surrounding try |
| IrGen.SurroundingTry.Pop | lib/IRGen/ESTreeIRGen.h:344-347 | destroying the innermost try record makes its `outer` the surrounding try again, and changes nothing else |
| IrGen.Append | lib/IRGen/ESTreeIRGen.h:1609-1631 | appending an instruction keeps the build valid and adds no block |
| IrGen.AppendAll | lib/IRGen/ESTreeIRGen.h:1609-1631 | emitting straight-line code appends it to the insertion block and changes no other block |
| IrGen.Scaffold | lib/IRGen/ESTreeIRGen.h:1597-1632 | the scaffolding creates the catch block, the next block when none is given, the body and cleanup blocks; the current block ends in TryStart(body, catch), the body block holds the body code then TryEnd(catch, cleanup), the cleanup block the cleanup code then a branch to next, the catch block the handler code, insertion ends in the catch block, and no earlier block other than the current one changes |
| IrGen.OpenTry | lib/IRGen/ESTreeIRGen.h:1603-1615 | the first half: the new blocks are created, the current block ends in TryStart, and the body is emitted into the new body block, which becomes the insertion block |
| IrGen.CloseTry | lib/IRGen/ESTreeIRGen.h:1617-1624 | the second half: the body block ends in TryEnd to a new cleanup block, which holds the cleanup code and a branch to the next block |
| IrGen.Builder.CreateBasicBlock | lib/IRGen/ESTreeIRGen.h:1603-1606 | a new empty block is added at the end and its index returned |
| IrGen.Builder.Create | lib/IRGen/ESTreeIRGen.h:1609-1631 | the instruction is appended to the insertion block |
| IrGen.Builder.CreateAll | lib/IRGen/ESTreeIRGen.h:1609-1631 | the code is appended to the insertion block |
| IrGen.Builder.SetInsertionBlock | lib/IRGen/ESTreeIRGen.h:1610 | only the insertion block changes (see also lines 1621, 1628) |
| IrGen.Builder.EmitTryCatchScaffolding | lib/IRGen/ESTreeIRGen.h:1597-1632 | the builder's blocks and insertion point afterwards, and the returned next block, are those `Scaffold` describes |
| IrGen.Builder.EmitTryStart | lib/IRGen/ESTreeIRGen.h:1603-1615 | the builder ends as `OpenTry` says, returning the catch block (the first one created) and the next block |
| IrGen.Builder.EmitTryEnd | lib/IRGen/ESTreeIRGen.h:1617-1624 | the builder ends as `CloseTry` says |
| IrGen.Builder.EmitIteratorComplete | lib/IRGen/ESTreeIRGen.h:1430-1435 | a stack load of the iterator storage and a strict equality with undefined are appended to the insertion block, and the result is the comparison |
| IrGen.IteratorCompleteMeaning | lib/IRGen/ESTreeIRGen.h:1427-1435 | the emitted test evaluates to true exactly when the iterator storage holds undefined |
| FlowChecker.IsEqualMeaning | lib/Sema/FlowChecker.h:38-53 | `isEqual` as written holds iff the two lists have the same pointers, or both are non-empty, of the same length and pairwise `equals` |
| FlowChecker.IsEqualLoop | lib/Sema/FlowChecker.h:38-53 | the early-exit loop over the elements returns exactly what `isEqual` decides |
| FlowChecker.SentinelsCollide | lib/Sema/FlowChecker.h:41-46 | as written, the sentinel tests compare contents: the empty key equals the tombstone key, and equals any zero-length list stored by the checker |
| FlowChecker.KeysEqualMeaning | lib/Sema/FlowChecker.h:38-53 | the corrected equality tells the sentinels apart by address: a sentinel equals only a key at its own address, the two sentinels differ, every key equals itself, and on other keys it is `isEqual` |
| FlowChecker.Lookup | lib/Sema/FlowChecker.h:190-195 | the map lookup finds nothing iff no stored key equals the arguments, and a found specialisation is the one stored under an equal key |
| FlowChecker.LookupAfterAdd | lib/Sema/FlowChecker.h:190-208 | after an entry is added, lookups that found something find the same, and among those that found nothing exactly the lists equal to the new key find the new specialisation |
| FlowChecker.AddKeepsValid | lib/Sema/FlowChecker.h:199-208 | storing a new argument vector and a ref to it keeps every key pointing at its stored vector and no two keys equal, when no present key equals the new one (the assert at 206) |
| FlowChecker.Checker.constructor | lib/Sema/FlowChecker.h:230-232 | the checker starts with no stored type-argument vectors |
| FlowChecker.GenericInfo.constructor | lib/Sema/FlowChecker.h:166-184 | a generic starts with no specialisations |
| FlowChecker.GenericInfo.GetSpecialization | lib/Sema/FlowChecker.h:190-195 | `getSpecialization` returns null iff no stored key equals the arguments |
| FlowChecker.GenericInfo.AddSpecialization | lib/Sema/FlowChecker.h:199-208 | the arguments are appended to the checker's storage, the returned key refers to that copy, the entry is added last, the table stays well formed, and `getSpecialization` on the key now returns the specialisation |
| FlowChecker.MapType | lib/Sema/FlowChecker.h:824-826 | a parameter's type is present iff it has an annotation, and is then the callback's type for it |
| FlowChecker.Rejection | lib/Sema/FlowChecker.h:900-952 | a property draws no error iff it is an ObjectTypeProperty with no variance, static, proto, method or optional flag, of kind init, with an identifier key not accepted before |
| FlowChecker.ObjectTypeOf | lib/Sema/FlowChecker.h:870-957 | the type is any iff the annotation has indexers, call properties, internal slots or is inexact, with exactly one error at the first offending part in that order; otherwise it is the exact object the property loop builds, with the loop's errors |
| FlowChecker.KeptMeaning | lib/Sema/FlowChecker.h:898-953 | the kept property positions are increasing and are exactly the supported properties whose name no earlier supported property has |
| FlowChecker.ObjectNames | lib/Sema/FlowChecker.h:897-950 | the duplicate-check set ends up holding exactly the names of the supported properties |
| FlowChecker.FirstOfNameLast | lib/Sema/FlowChecker.h:946-952 | the last property is the first of its name iff it is supported and its name is not among the earlier supported names |
| FlowChecker.ObjectFieldsMeaning | lib/Sema/FlowChecker.h:896-953 | one field per kept property, in order, with that property's name and its value's type |
| FlowChecker.ObjectReportsRest | lib/Sema/FlowChecker.h:900-953 | every property is either kept as a field or reported by exactly one error |
| FlowChecker.ObjectFieldsUnique | lib/Sema/FlowChecker.h:945-952 | the fields have pairwise distinct names |
| FlowChecker.ProcessProperty | lib/Sema/FlowChecker.h:900-953 | one turn of the property loop appends a field, a name or an error exactly as the loop's step says |
| FlowChecker.ProcessObjectTypeAnnotation | lib/Sema/FlowChecker.h:870-957 | the method returns the type and the errors `ObjectTypeOf` describes |
| FlowChecker.PlainAtMeaning | lib/Sema/FlowChecker.h:855-866 | the kept tuple positions are increasing and are exactly the elements that are neither spreads nor labeled |
| FlowChecker.TupleKeepsPlain | lib/Sema/FlowChecker.h:851-867 | the tuple holds the callback's type of each plain element in order, and every spread or labeled element is reported once |
| FlowChecker.ProcessTupleTypeAnnotation | lib/Sema/FlowChecker.h:851-867 | the method returns the tuple of the plain elements' types and the errors for the others |
| FlowChecker.Decimal | lib/Sema/FlowChecker.h:835 | the decimal rendering of an index is a non-empty string of digits |
| FlowChecker.DecimalInjective | lib/Sema/FlowChecker.h:835 | different indices have different decimal renderings |
| FlowChecker.PatternName | lib/Sema/FlowChecker.h:835 | the name given to a pattern parameter is `?param_` followed by its index in decimal |
| FlowChecker.ParamsAt | lib/Sema/FlowChecker.h:818-840 | the parameter loop appends one entry per parameter, each determined by the parameter and its position |
| FlowChecker.ParamsMeaning | lib/Sema/FlowChecker.h:818-840 | a FunctionTypeParam keeps its name and its annotation's type (null when unannotated); a pattern at position i becomes `?param_i` of type any |
| FlowChecker.FlaggedBelowNext | lib/Sema/FlowChecker.h:822-837 | counting flagged parameters advances by one exactly at an optional parameter or a pattern |
| FlowChecker.ParamsDiagCount | lib/Sema/FlowChecker.h:818-840 | the loop reports exactly one diagnostic per optional parameter or pattern parameter |
| FlowChecker.PatternNamesDistinct | lib/Sema/FlowChecker.h:832-836 | pattern parameters at different positions get different names |
| FlowChecker.ProcessParam | lib/Sema/FlowChecker.h:819-839 | one turn of the loop appends the parameter's entry for its position and its diagnostics |
| FlowChecker.ProcessParams | lib/Sema/FlowChecker.h:818-840 | the loop produces the parameter list and diagnostics of `ParamsFold` |
| FlowChecker.ProcessFunctionTypeAnnotation | lib/Sema/FlowChecker.h:804-849 | an error for a rest parameter or type parameters, the `this` type when annotated, the return type and the parameter list, as `FunctionTypeOf` describes |
| Ts2Flow.KeywordMapping | lib/AST/TS2Flow.cpp:185-197 | two TS keywords map to the same Flow annotation iff they are the same keyword or both are `void`/`undefined`, and every Flow keyword annotation is the image of some TS keyword |
| Ts2Flow.LiteralConverted | lib/AST/TS2Flow.cpp:205-236 | a literal type converts iff it is a null, numeric, string, boolean or bigint literal; any other literal yields null and one error |
| Ts2Flow.LiteralRoundTrip | lib/AST/TS2Flow.cpp:205-236 | the converted literal annotation carries the same literal value back |
| Ts2Flow.Converted | lib/AST/TS2Flow.cpp:150-183 | `convertTSNode` returns a null or non-TS node unchanged without errors, and an unsupported TS node becomes null with one error |
| Ts2Flow.IdParamConverted | lib/AST/TS2Flow.cpp:329-358 | an identifier becomes a FunctionTypeParam iff its annotation converts; the param's type is the converted annotation unwrapped, its optional flag the identifier's, and its name the identifier stripped of annotation and optional flag, or none for `this` |
| Ts2Flow.IdParamAsWritten | lib/AST/TS2Flow.cpp:331-334 | as written, the identifier's conversion dereferences null (through `dyn_cast`) exactly when `convertTSNode` returned null |
| Ts2Flow.IdParamAsWrittenAgrees | lib/AST/TS2Flow.cpp:329-358 | whenever the annotation converts, the code as written returns what the corrected conversion returns |
| Ts2Flow.UnannotatedParamDereferencesNull | lib/AST/TS2Flow.cpp:331-334 | an identifier without an annotation makes the code as written dereference null, while the corrected conversion reports "failed to convert type annotation" |
| Ts2Flow.UnannotatedFunctionTypeFails | lib/AST/TS2Flow.cpp:295-312 | with the corrected conversion, a function type with an unannotated parameter yields null and reports the failed annotation then the failed function type (see also lines 336-340) |
| Ts2Flow.ParamsMeaning | lib/AST/TS2Flow.cpp:294-314 | the parameter loop succeeds iff every parameter is an identifier that converts, then yields their params in order; on failure its last error is "failed to convert a function type node" |
| Ts2Flow.FunctionTypeShape | lib/AST/TS2Flow.cpp:262-322 | a function type converts iff every middle parameter converts; the result has the converted `this` exactly when the first parameter is `this`, the converted return type and the middle parameters' params in order |
| Ts2Flow.NonIdentifierFails | lib/AST/TS2Flow.cpp:296-309 | a middle parameter that is not an identifier makes the whole conversion fail |
| Ts2Flow.WalkedListMeaning | lib/AST/TS2Flow.cpp:121-137 | a list keeps its length; a non-TS element is walked, a TS element is replaced by its conversion, or left in place when conversion fails |
| Ts2Flow.WalkedChildrenMeaning | lib/AST/TS2Flow.cpp:92-94 | visiting a node's children keeps their number and kind: a single-node field stays a single node and a list stays a list, each walked on its own |
| Ts2Flow.SlotKeepsTs | lib/AST/TS2Flow.cpp:92-94 | a TS node in a single-node field is only visited, never converted, and the validator then reports it with its parent |
| Ts2Flow.ListConvertsTs | lib/AST/TS2Flow.cpp:121-137 | the same TS node inside a node list is replaced by its conversion when that succeeds |
| Ts2Flow.RemainingMeaning | lib/AST/TS2Flow.cpp:42-57 | the validator reports nothing for a node iff no TS node remains in it |
| Ts2Flow.RemainingOptMeaning | lib/AST/TS2Flow.cpp:42-57 | the validator reports nothing for an optional child iff it holds no TS node |
| Ts2Flow.RemainingListMeaning | lib/AST/TS2Flow.cpp:42-57 | the validator reports nothing for a list iff none of its elements holds a TS node |
| Ts2Flow.RemainingChildrenMeaning | lib/AST/TS2Flow.cpp:42-57 | the validator reports nothing for a node's fields iff none of them holds a TS node |
| Ts2Flow.RemainingChildMeaning | lib/AST/TS2Flow.cpp:42-57 | the validator reports nothing for one field, single node or list, iff it holds no TS node |
| Ts2Flow.ProgramConvertedMeaning | lib/AST/TS2Flow.cpp:75-90 | `convert` returns the program iff there were no earlier errors, the walk reported none and no TS node remains, and then returns the walked program (see also lines 26-34) |
| Ts2Flow.ParamsFailureSticks | lib/AST/TS2Flow.cpp:306-310 | once a parameter fails the loop returns: later parameters change neither the result nor the errors |
| Ts2Flow.ParamsConverted | lib/AST/TS2Flow.cpp:294-314 | a successful loop yields one param per parameter, and a failed one ends with "failed to convert a function type node"; ParamsMeaning states when each happens |
| Ts2Flow.FunctionTypeConverted | lib/AST/TS2Flow.cpp:262-322 | a converted function type is a Flow function type annotation that keeps the converted return type and the type parameters, and the type-parameter diagnostics come first; FunctionTypeShape states the rest |
| Ts2Flow.Converter.constructor | lib/AST/TS2Flow.cpp:66-69 | the converter starts with the error log it is given |
| Ts2Flow.Converter.ConvertTSNode | lib/AST/TS2Flow.cpp:150-260 | returns the conversion and appends exactly its errors |
| Ts2Flow.Converter.ConvertIdentifierToFunctionTypeParam | lib/AST/TS2Flow.cpp:329-358 | returns the corrected identifier conversion and appends exactly its errors |
| Ts2Flow.Converter.ConvertRestElementToFunctionTypeParam | lib/AST/TS2Flow.cpp:360-373 | a rest element over an identifier converts as that identifier; any other argument yields null and "failed to convert rest element" |
| Ts2Flow.Converter.ConvertParams | lib/AST/TS2Flow.cpp:294-314 | the loop returns the parameter conversion and appends its errors, stopping at the first failure |
| Ts2Flow.Converter.ConvertFunctionType | lib/AST/TS2Flow.cpp:262-322 | returns the function type conversion and appends its errors (type parameters, return type, `this`, rest, parameters, in that order) |
| Ts2Flow.Converter.Visit | lib/AST/TS2Flow.cpp:92-119 | visiting a node returns the walked node and appends exactly the walk's errors |
| Ts2Flow.Converter.VisitFunctionDeclaration | lib/AST/TS2Flow.cpp:115-119 | the return type is converted, then the children are walked |
| Ts2Flow.Converter.VisitClassProperty | lib/AST/TS2Flow.cpp:101-113 | the annotation is converted, readonly or accessibility modifiers draw an error and the modifiers are dropped, then the children are walked |
| Ts2Flow.Converter.VisitList | lib/AST/TS2Flow.cpp:121-137 | the list loop returns the walked list and appends its errors |
| Ts2Flow.Converter.VisitChildren | lib/AST/TS2Flow.cpp:92-94 | the loop over a node's fields returns the walked fields and appends exactly their errors |
| Ts2Flow.Converter.VisitChild | lib/AST/TS2Flow.cpp:92-94 | a single-node field is visited and a node-list field walked with replacement, appending exactly the walk's errors |
| Ts2Flow.Converter.Convert | lib/AST/TS2Flow.cpp:75-90 | the result and the final error log are those `ProgramConverted` describes |
| RegexTable.ConcatPrefix | include/hermes/Regex/RegexSerialization.h:132-135 | the buffer built from the first i+1 regexps is the buffer of the first i followed by the i-th bytecode, and it is a prefix of the whole buffer |
| RegexTable.EntriesTileBuffer | include/hermes/Regex/RegexSerialization.h:129-135 | while the buffer is below 4 GiB, each entry's (offset, length) addresses exactly its regexp's bytecode in the buffer, and the next entry starts where it ends |
| RegexTable.KeysUnique | include/hermes/Regex/RegexSerialization.h:100-108 | distinct indices hold distinct (pattern, flags) keys (see also lines 121-124) |
| RegexTable.AppendKeeps | include/hermes/Regex/RegexSerialization.h:126-137 | appending a regexp with a new key, its entry and its bytecode, and mapping the key to the new index, keeps the table's invariant |
| RegexTable.EntriesAppend | include/hermes/Regex/RegexSerialization.h:128-135 | the appended entry holds the old buffer size and the bytecode size, truncated to 32 bits, and the buffer grows by that bytecode |
| RegexTable.KeysAppend | include/hermes/Regex/RegexSerialization.h:136 | the key map sends every key to the index of the regexp that has it, and no other key, after the new key is added |
| RegexTable.UniquingRegExpTable.constructor | include/hermes/Regex/RegexSerialization.h:115 | a new table is empty: no regexps, entries, bytecode or keys |
| RegexTable.UniquingRegExpTable.AddRegExp | include/hermes/Regex/RegexSerialization.h:121-138 | a known (pattern, flags) key returns its index and changes nothing; a new key gets the next index, an entry (old buffer size, bytecode size) at the end, its bytecode appended to the buffer and its key mapped to the index; the invariant is kept and the table is no longer empty |
| RegexTable.UniquingRegExpTable.GetEntryList | include/hermes/Regex/RegexSerialization.h:146-148 | a valid table has one entry per regexp; while the buffer is below 4 GiB, entry i addresses exactly regexp i's bytecode in the buffer |
| RegexTable.UniquingRegExpTable.GetBytecodeBuffer | include/hermes/Regex/RegexSerialization.h:151-153 | in a valid table the buffer is every regexp's bytecode back to back, in index order |
| SerializedLiteral.TypeFromCode | include/hermes/BCGen/SerializedLiteralGenerator.h:33 | every three-bit type code names the sequence type that has that code (see also lines 70-79) |
| SerializedLiteral.TagWithinMask | include/hermes/BCGen/SerializedLiteralGenerator.h:70-80 | every tag lies inside `TagMask`: bit 7 and the length bits are clear |
| SerializedLiteral.TagsDistinct | include/hermes/BCGen/SerializedLiteralGenerator.h:70-79 | two types have the same tag iff they are the same type |
| SerializedLiteral.TagValues | include/hermes/BCGen/SerializedLiteralGenerator.h:70-79 | the tag constants are 0x00, 0x10, ..., 0x70 for null, true, false, number, long string, short string, undefined and integer |
| SerializedLiteral.EncodeSeqTag | include/hermes/BCGen/SerializedLiteralGenerator.h:27-43 | a sequence shorter than 16 gets one tag byte with bit 7 clear, a longer one (up to 4095) two bytes with bit 7 set; bits 6-4 hold the type (see also line 82) |
| SerializedLiteral.DecodeSeqTag | include/hermes/BCGen/SerializedLiteralGenerator.h:27-43 | a decoded tag is one or two bytes that the buffer holds, and its length fits in twelve bits |
| SerializedLiteral.SeqTagRoundTrip | include/hermes/BCGen/SerializedLiteralGenerator.h:27-43 | decoding the tag of a type and a length up to `SequenceMax` gives back that type and length, whatever follows the tag |
| SerializedLiteral.TypeCodeInjective | include/hermes/BCGen/SerializedLiteralGenerator.h:70-79 | different types have different codes |
| SerializedLiteral.LittleEndian | include/hermes/BCGen/SerializedLiteralGenerator.h:50 | a value written in n little-endian bytes takes exactly n bytes |
| SerializedLiteral.FromLittleEndian | include/hermes/BCGen/SerializedLiteralGenerator.h:50 | n little-endian bytes read back a number below 256^n |
| SerializedLiteral.LittleEndianRoundTrip | include/hermes/BCGen/SerializedLiteralGenerator.h:50 | a number below 256^n survives writing and reading n little-endian bytes |
| SerializedLiteral.Payload | include/hermes/BCGen/SerializedLiteralGenerator.h:46-50 | null, true, false and undefined take no bytes, short strings (index below 2^16) two, integers and long strings four, numbers eight |
| SerializedLiteral.DecodePayload | include/hermes/BCGen/SerializedLiteralGenerator.h:46-50 | an element is read back only from exactly its type's payload size |
| SerializedLiteral.PayloadRoundTrip | include/hermes/BCGen/SerializedLiteralGenerator.h:46-50 | every value survives writing and reading its payload under its own sequence type |
| BytecodeLayout.AlignTo4 | lib/BCGen/HBC/Bytecode.cpp:71-72 | the jump-table start is the least multiple of 4 at or above the opcode size |
| BytecodeLayout.WordAt | lib/BCGen/HBC/Bytecode.cpp:81-82 | a little-endian word read from four bytes is below 2^32 |
| BytecodeLayout.JumpTablesOnly | lib/BCGen/HBC/Bytecode.cpp:68-85 | no jump tables when the aligned start lies past the buffer; otherwise the words from the aligned start to the end of the buffer (whose length is a multiple of 4 by the assert at 79), each the word stored at its position |
| BytecodeLayout.Words | lib/BCGen/HBC/Bytecode.cpp:80-84 | `count` words starting at a byte offset, each the word stored at its position |
| BytecodeLayout.FunctionOffsets | lib/BCGen/HBC/Bytecode.cpp:49-55 | the loop gives each function the sum of the bytecode sizes before it, kept in a 32-bit counter |
| BytecodeLayout.OffsetsArePrefixSums | lib/BCGen/HBC/Bytecode.cpp:49-55 | when the sizes sum below 2^32, the first offset is 0 and each next function starts where the previous one's bytecode ends |
| BytecodeLayout.SumPrefixBounded | lib/BCGen/HBC/Bytecode.cpp:51-55 | a running total never exceeds the total |
| BytecodeLayout.BytecodeModule.constructor | lib/BCGen/HBC/Bytecode.cpp:33-44 | a module starts with the given number of empty function slots |
| BytecodeLayout.BytecodeModule.SetFunction | lib/BCGen/HBC/Bytecode.cpp:33-38 | for an index in bounds (the assert at 36) the slot holds the function, the table keeps its size and no other slot changes |
| BytecodeLayout.BytecodeModule.GetFunction | lib/BCGen/HBC/Bytecode.cpp:40-44 | for an index in bounds of a filled slot (the asserts at 41-42) the function stored there |
| BytecodeLayout.BytecodeModule.PopulateSourceMapOffsets | lib/BCGen/HBC/Bytecode.cpp:46-58 | one offset per function, each the 32-bit sum of the bytecode sizes of the functions before it |
| BytecodeLayout.Sizes | lib/BCGen/HBC/Bytecode.cpp:54 | one bytecode size per filled slot, in order |
| HeapAddress.KSizeIsPowerOfTwo | include/hermes/VM/AlignedHeapSegment.h:64-65 | the segment size is 2 to the power `kLogSize` |
| HeapAddress.StorageStart | include/hermes/VM/AlignedHeapSegment.h:83-86 | masking off the low bits gives a multiple of the segment size at most the pointer and less than one segment below it |
| HeapAddress.StorageEnd | include/hermes/VM/AlignedHeapSegment.h:95-97 | the storage end is a multiple of the segment size above the pointer and at most one segment above it |
| HeapAddress.Offset | include/hermes/VM/AlignedHeapSegment.h:106-108 | the offset is below the segment size, and the storage start plus the offset is the pointer |
| HeapAddress.StorageContainsPointer | include/hermes/VM/AlignedHeapSegment.h:76-108 | every address lies in [storageStart, storageEnd), its storage start is segment aligned, and start plus offset gives the address back |
| HeapAddress.StorageStartOfStorage | include/hermes/VM/AlignedHeapSegment.h:83-97 | every address inside a storage has that storage's start |
| HeapAddress.XorZeroIffEqual | include/hermes/VM/AlignedHeapSegment.h:556-559 | the bitwise xor of two addresses is zero iff they are equal |
| HeapAddress.XorBelowPow2 | include/hermes/VM/AlignedHeapSegment.h:556-559 | the xor of two addresses is below 2^k iff they agree above the low k bits |
| HeapAddress.ContainedInSameMeaning | include/hermes/VM/AlignedHeapSegment.h:340-341 | `containedInSame` (xor below the storage size) holds iff the two addresses have the same storage start (see also lines 556-559) |
| HeapAddress.MarkBitIndexInRange | include/hermes/VM/AlignedHeapSegment.h:131 | the mark bit index of every address is below `kMarkBitArraySize` (see also lines 262-266) |
| HeapAddress.AddressToMarkBitArrayIndex | include/hermes/VM/AlignedHeapSegment.h:262-266 | the index is the offset in 8-byte units, and for a heap-aligned address the storage start plus eight times the index is the address |
| HeapAddress.MarkBitIndexInjective | include/hermes/VM/AlignedHeapSegment.h:262-266 | two heap-aligned addresses of one storage share a mark bit iff they are the same address |
| HeapSegment.AlignTo | lib/VM/gcs/AlignedHeapSegment.cpp:124-129 | `alignTo` gives a multiple of the alignment at or above its argument, less than one alignment above it |
| HeapSegment.AlignToMinimal | lib/VM/gcs/AlignedHeapSegment.cpp:124-129 | `alignTo` gives the least such multiple |
| HeapSegment.AlignToMonotone | lib/VM/gcs/AlignedHeapSegment.cpp:124-131 | aligning keeps order, so the released pages run from the new level's page up to the old level's page |
| HeapSegment.AlignToBelowAlignedBound | lib/VM/gcs/AlignedHeapSegment.cpp:56-59 | aligning an address below a page-aligned bound stays at or below it, so the released range ends inside the storage (see also lines 124-131) |
| HeapSegment.AlignedHeapSegment.EndIsHiLim | include/hermes/VM/AlignedHeapSegment.h:516-542 | the allocation region ends exactly at the storage's upper limit, which is page aligned, after its start |
| HeapSegment.AlignedHeapSegment.Size | include/hermes/VM/AlignedHeapSegment.h:520-522 | the size is `maxSize`, positive and at most the storage size when the layout holds |
| HeapSegment.AlignedHeapSegment.Used | include/hermes/VM/AlignedHeapSegment.h:524-526 | the start plus the used bytes is the level; with ordered levels it lies between 0 and the size |
| HeapSegment.AlignedHeapSegment.Available | include/hermes/VM/AlignedHeapSegment.h:528-530 | used, available and the part beyond the effective end add up to the size; with ordered levels it is between 0 and what is not used |
| HeapSegment.AlignedHeapSegment.DbgContainsLevelMeaning | lib/VM/gcs/AlignedHeapSegment.cpp:165-167 | a level passes `dbgContainsLevel` iff it lies from the lower limit up to and including the upper limit |
| HeapSegment.AlignedHeapSegment.Null | include/hermes/VM/AlignedHeapSegment.h:111-112 | the null segment owns no storage and has no provider; its level and effective end are the start and end of a region at address 0 (see also lines 404-416) |
| HeapSegment.AlignedHeapSegment.constructor | lib/VM/gcs/AlignedHeapSegment.cpp:51-68 | a segment over storage aligned to the segment size (the assert at 53-55) owns that storage and provider, with its level at the start and its effective end at the end of the region |
| HeapSegment.AlignedHeapSegment.Alloc | include/hermes/VM/AlignedHeapSegment.h:426-461 | an allocation that would pass the effective end fails and changes nothing; otherwise it returns the old level and bumps the level by the size, keeping start <= level <= effective end <= end and used plus available constant |
| HeapSegment.AlignedHeapSegment.AllocPathsAgree | include/hermes/VM/AlignedHeapSegment.h:436-451 | the 64-bit test (new level past the effective end) and the 32-bit test (available below the size) refuse the same allocations |
| HeapSegment.AlignedHeapSegment.SetLevel | lib/VM/gcs/AlignedHeapSegment.cpp:118-135 | the level becomes the argument; with advice and a lower level, the pages from the new level's page boundary to the old level's page boundary are released, a range that always meets `markUnused`'s asserts |
| HeapSegment.AlignedHeapSegment.MarkUnused | lib/VM/gcs/AlignedHeapSegment.cpp:102-116 | the released length is the range's size, a whole number of pages and at most one segment |
| HeapSegment.AlignedHeapSegment.ResetLevel | lib/VM/gcs/AlignedHeapSegment.cpp:143-146 | the level returns to the start of the region, nothing is used, and any released range is valid for `markUnused` |
| HeapSegment.AlignedHeapSegment.SetEffectiveEnd | lib/VM/gcs/AlignedHeapSegment.cpp:152-158 | for an end in the region and not below the level (the asserts), only the effective end changes |
| HeapSegment.AlignedHeapSegment.ClearExternalMemoryCharge | lib/VM/gcs/AlignedHeapSegment.cpp:160-162 | the effective end returns to the end of the region and nothing else changes |
| HeapSegment.Swap | lib/VM/gcs/AlignedHeapSegment.cpp:70-77 | the two segments exchange lower limit, provider, level and effective end |
| HeapSegment.MoveConstruct | lib/VM/gcs/AlignedHeapSegment.cpp:79-82 | the new segment takes over the other's four fields and the other is left a null segment without a provider |
| CellKind.KindInRangeSingleton | include/hermes/VM/CellKind.h:46-48 | a one-kind range contains exactly that kind |
| CellKind.KindInRangeInclusive | include/hermes/VM/CellKind.h:44-48 | `kindInRange` is inclusive at both ends and false outside them |
| CellKind.ContiguousAscendingMeaning | include/hermes/VM/CellKind.h:50-62 | the variadic `cellKindsContiguousAscending` holds iff every adjacent pair is consecutive, iff the kinds count up by one from the first |
| CellKind.CallableRangesPartition | include/hermes/VM/CellKind.h:25-38 | under the static assertions, the callable range is exactly the union of the unknown-makes-this, makes-this and expects-this ranges, which are pairwise disjoint |
| CellKind.ExpectsThisSingleComparison | include/hermes/VM/CellKind.h:39-42 | because the expects-this range ends at the last cell kind, a valid kind is in it iff it is at least the range's first kind |
| TableGenHeader.Repeat | external/llvh/lib/TableGen/TableGenBackend.cpp:27-29 | n copies of the fill character |
| TableGenHeader.Line | external/llvh/lib/TableGen/TableGenBackend.cpp:21-31 | every line printed is 80 characters plus a newline, given the assert that prefix and suffix fit |
| TableGenHeader.LineShape | external/llvh/lib/TableGen/TableGenBackend.cpp:21-31 | a line is the prefix, the fill up to the column where the suffix starts, the suffix ending at column 80, and a newline |
| TableGenHeader.PrintLine | external/llvh/lib/TableGen/TableGenBackend.cpp:21-31 | the fill loop writes exactly the line `Line` describes |
| TableGenHeader.Chunks | external/llvh/lib/TableGen/TableGenBackend.cpp:38-45 | the description is cut into at least one piece, each at most 74 characters (80 minus prefix and suffix) |
| TableGenHeader.ChunksConcat | external/llvh/lib/TableGen/TableGenBackend.cpp:40-45 | the pieces put back together give the description: nothing is lost or repeated |
| TableGenHeader.EmptyDescriptionOneChunk | external/llvh/lib/TableGen/TableGenBackend.cpp:41-45 | the do-while loop writes one empty framed line for an empty description |
| TableGenHeader.ChunksFull | external/llvh/lib/TableGen/TableGenBackend.cpp:42-44 | every piece but the last is exactly 74 characters, and a last piece after others is not empty |
| TableGenHeader.ChunkLines | external/llvh/lib/TableGen/TableGenBackend.cpp:41-45 | the description lines take one 81-character line per piece |
| TableGenHeader.HeaderSize | external/llvh/lib/TableGen/TableGenBackend.cpp:33-52 | the banner is 6 + (number of pieces) lines of 81 characters plus a final newline, and starts with the opening line |
| TableGenHeader.ChunkStep | external/llvh/lib/TableGen/TableGenBackend.cpp:42-44 | one turn of the loop writes the first framed line of what remains and advances past that piece |
| TableGenHeader.EmitDescription | external/llvh/lib/TableGen/TableGenBackend.cpp:40-45 | the do-while loop writes exactly the framed lines of the description's pieces |
| TableGenHeader.EmitSourceFileHeader | external/llvh/lib/TableGen/TableGenBackend.cpp:33-52 | the output is the opening line, a blank framed line, the description lines, a blank line, the notice, a blank line, the closing line and a newline |
| JsxText.SplitLines | benchmarks/build-helpers/flow-bundler/src/transforms/transformJSX.js:256 | splitting on `\r\n`, `\n` or `\r` gives at least one line |
| JsxText.SplitLinesHaveNoBreaks | benchmarks/build-helpers/flow-bundler/src/transforms/transformJSX.js:256 | no line holds a line-break character |
| JsxText.SplitJoinRoundTrip | benchmarks/build-helpers/flow-bundler/src/transforms/transformJSX.js:256 | for a text without `\r`, joining the lines with `\n` gives the text back |
| JsxText.SplitWithoutBreaks | benchmarks/build-helpers/flow-bundler/src/transforms/transformJSX.js:256 | a text without a line break is one line |
| JsxText.SplitWithBreak | benchmarks/build-helpers/flow-bundler/src/transforms/transformJSX.js:256 | a text with a line break splits into two lines or more |
| JsxText.TabsToSpaces | benchmarks/build-helpers/flow-bundler/src/transforms/transformJSX.js:273 | every tab becomes a space and every other character stays, length unchanged |
| JsxText.LeadingSpaces | benchmarks/build-helpers/flow-bundler/src/transforms/transformJSX.js:277 | the count of leading spaces: all counted characters are spaces, and the next one is not |
| JsxText.TrailingSpaces | benchmarks/build-helpers/flow-bundler/src/transforms/transformJSX.js:282 | the count of trailing spaces: all counted characters are spaces, and the one before them is not |
| JsxText.TrimLeadingMeaning | benchmarks/build-helpers/flow-bundler/src/transforms/transformJSX.js:277 | removing the leading spaces leaves nothing iff the text is all spaces, and the text is those spaces followed by what is left |
| JsxText.TrimTrailingMeaning | benchmarks/build-helpers/flow-bundler/src/transforms/transformJSX.js:282 | removing the trailing spaces leaves nothing iff the text is all spaces, and the text is what is left followed by those spaces |
| JsxText.TrimBothMeaning | benchmarks/build-helpers/flow-bundler/src/transforms/transformJSX.js:276-283 | trimming both ends leaves nothing iff the text is all spaces |
| JsxText.TrimmedNonEmpty | benchmarks/build-helpers/flow-bundler/src/transforms/transformJSX.js:268-285 | with two lines or more, a line survives trimming iff it has a character other than space and tab (the test of line 259) |
| JsxText.SpacedLineMeaning | benchmarks/build-helpers/flow-bundler/src/transforms/transformJSX.js:259 | after tabs become spaces a line is all spaces iff it had no character other than space and tab (see also line 273) |
| JsxText.TrimmedClean | benchmarks/build-helpers/flow-bundler/src/transforms/transformJSX.js:273-283 | a trimmed line holds no tab and no line break |
| JsxText.TrimmedLines | benchmarks/build-helpers/flow-bundler/src/transforms/transformJSX.js:265-283 | one trimmed line per line: tabs to spaces, leading spaces cut except on the first line, trailing spaces cut except on the last |
| JsxText.LastContent | benchmarks/build-helpers/flow-bundler/src/transforms/transformJSX.js:257-262 | the first loop finds the last line with content, or 0 when none has |
| JsxText.JoinSpacesSnoc | benchmarks/build-helpers/flow-bundler/src/transforms/transformJSX.js:285-291 | adding a piece after others adds a space then the piece |
| JsxText.AppendStep | benchmarks/build-helpers/flow-bundler/src/transforms/transformJSX.js:285-291 | appending a line after a pending space continues the space-joined text |
| JsxText.AppendedMeaning | benchmarks/build-helpers/flow-bundler/src/transforms/transformJSX.js:264-292 | the second loop builds the non-empty trimmed lines joined by single spaces, plus a pending space while a later line with content remains |
| JsxText.KeptWitness | benchmarks/build-helpers/flow-bundler/src/transforms/transformJSX.js:285 | the kept lines are exactly the non-empty trimmed lines: none kept iff all are empty |
| JsxText.LastContentFits | benchmarks/build-helpers/flow-bundler/src/transforms/transformJSX.js:257-292 | the last line with content is the last non-empty trimmed line, so no space trails the result |
| JsxText.FindLastNonEmptyLine | benchmarks/build-helpers/flow-bundler/src/transforms/transformJSX.js:257-262 | the loop returns the last line with content, or 0 |
| JsxText.TrimLine | benchmarks/build-helpers/flow-bundler/src/transforms/transformJSX.js:266-283 | the loop body produces the trimmed line |
| JsxText.NormalizeJsxText | benchmarks/build-helpers/flow-bundler/src/transforms/transformJSX.js:256-292 | the two loops produce the normalised text: the non-empty trimmed lines joined with single spaces |
| JsxText.NormalizedByLoop | benchmarks/build-helpers/flow-bundler/src/transforms/transformJSX.js:264-292 | what the joining loop builds over all the lines is the normalised text |
| JsxText.JoinSpacesClean | benchmarks/build-helpers/flow-bundler/src/transforms/transformJSX.js:285-291 | joining clean pieces with spaces gives a clean string |
| JsxText.KeptClean | benchmarks/build-helpers/flow-bundler/src/transforms/transformJSX.js:285 | every kept line is clean |
| JsxText.NormalizedIsClean | benchmarks/build-helpers/flow-bundler/src/transforms/transformJSX.js:256-298 | the normalised text holds no tab and no line break |
| JsxText.JoinSpacesEmpty | benchmarks/build-helpers/flow-bundler/src/transforms/transformJSX.js:294-296 | non-empty pieces join to the empty string iff there are none |
| JsxText.NormalizedEmpty | benchmarks/build-helpers/flow-bundler/src/transforms/transformJSX.js:256-298 | a text without line breaks only has its tabs turned into spaces; with a break it becomes empty (and the child is dropped) iff no line has content |
| JsxTransform.ToLower | benchmarks/build-helpers/flow-bundler/src/transforms/transformJSX.js:55 | `toLowerCase` on one character moves A-Z up by 0x20 and keeps lower-case letters, digits, `_` and `$` |
| JsxTransform.IntrinsicNames | benchmarks/build-helpers/flow-bundler/src/transforms/transformJSX.js:54-63 | `div` and `_x` name intrinsic elements (string literals), while `Button`, a Latin-1 capital and a name with `$` name components |
| JsxTransform.MemberOf | benchmarks/build-helpers/flow-bundler/src/transforms/transformJSX.js:67-99 | a member name converts to a member expression without JSX |
| JsxTransform.ElementType | benchmarks/build-helpers/flow-bundler/src/transforms/transformJSX.js:48-110 | an identifier name becomes a string literal when intrinsic and an identifier otherwise; the result holds no JSX |
| JsxTransform.MemberPath | benchmarks/build-helpers/flow-bundler/src/transforms/transformJSX.js:67-99 | a member name converts iff no namespaced name is at its root, to the member expression with the same path; otherwise it throws "JSXNamespacedName JSX element not supported" |
| JsxTransform.ElementTypeMeaning | benchmarks/build-helpers/flow-bundler/src/transforms/transformJSX.js:48-110 | a name converts iff it is a non-empty identifier or a member name without a namespaced root; an empty identifier throws a TypeError (`name[0]` is undefined) and a namespaced name throws "Unknown JSX element type" |
| JsxTransform.AttrValueExpr | benchmarks/build-helpers/flow-bundler/src/transforms/transformJSX.js:112-142 | a missing value, `{}` or an empty expression gives `true`, a literal gives itself, a container gives its transformed expression, and anything else throws "Unknown JSX attribute value" |
| JsxTransform.PropertyKey | benchmarks/build-helpers/flow-bundler/src/transforms/transformJSX.js:158-162 | the property key is a string literal iff the name contains `-`, else an identifier |
| JsxTransform.AttrProp | benchmarks/build-helpers/flow-bundler/src/transforms/transformJSX.js:152-172 | a non-key attribute becomes an object property keyed by its name with its converted value, and a spread becomes a spread of its argument with any JSX in it converted (the corrected line 171); the result holds no JSX |
| JsxTransform.AttrsFold | benchmarks/build-helpers/flow-bundler/src/transforms/transformJSX.js:147-183 | the attribute map gives props and a key without JSX |
| JsxTransform.PropsOf | benchmarks/build-helpers/flow-bundler/src/transforms/transformJSX.js:144-204 | the props and key of an element hold no JSX |
| JsxTransform.ChildrenFold | benchmarks/build-helpers/flow-bundler/src/transforms/transformJSX.js:209 | the converted, non-null children hold no JSX |
| JsxTransform.ConvertChildren | benchmarks/build-helpers/flow-bundler/src/transforms/transformJSX.js:206-217 | the children expression holds no JSX |
| JsxTransform.ConvertNode | benchmarks/build-helpers/flow-bundler/src/transforms/transformJSX.js:223-254 | the converted element or fragment holds no JSX |
| JsxTransform.ConvertChild | benchmarks/build-helpers/flow-bundler/src/transforms/transformJSX.js:219-318 | a child is dropped (null) iff it is an empty expression, a container of one, or text that normalises to nothing; other text becomes the string literal of its normalised text; the only errors are those of nested conversions or "Unknown JSX child" |
| JsxTransform.TransformExpr | benchmarks/build-helpers/flow-bundler/src/transforms/transformJSX.js:320-338 | the transformed expression holds no JSX, and an expression without JSX is returned unchanged |
| JsxTransform.TransformExprs | benchmarks/build-helpers/flow-bundler/src/transforms/transformJSX.js:320-338 | a list is transformed element by element, keeping its length, and a list without JSX is unchanged |
| JsxTransform.TransformProps | benchmarks/build-helpers/flow-bundler/src/transforms/transformJSX.js:320-338 | properties are transformed one by one, keeping their number, and properties without JSX are unchanged |
| JsxTransform.TransformProp | benchmarks/build-helpers/flow-bundler/src/transforms/transformJSX.js:320-338 | one property is transformed, and one without JSX is unchanged |
| JsxTransform.VisitJsxNode | benchmarks/build-helpers/flow-bundler/src/transforms/transformJSX.js:340-357 | the JSXFragment and JSXElement visitors replace the node by its conversion, which is never null for an element or fragment |
| JsxTransform.NonKey | benchmarks/build-helpers/flow-bundler/src/transforms/transformJSX.js:153-156 | the attributes kept in the props are the ones not named `key` (see also line 183) |
| JsxTransform.LastKeyIndex | benchmarks/build-helpers/flow-bundler/src/transforms/transformJSX.js:153-156 | the key comes from the last `key` attribute, and there is none iff no attribute is named `key` |
| JsxTransform.AttrsDoneMeaning | benchmarks/build-helpers/flow-bundler/src/transforms/transformJSX.js:149-183 | the attribute map succeeds iff every attribute (keys included) converts |
| JsxTransform.AttrsFirstFailure | benchmarks/build-helpers/flow-bundler/src/transforms/transformJSX.js:149-183 | a failing map throws the error of the first attribute that fails |
| JsxTransform.AttrsDone | benchmarks/build-helpers/flow-bundler/src/transforms/transformJSX.js:149-183 | on success there is one prop per non-key attribute, each its conversion, and the key is the last key attribute's value, or null |
| JsxTransform.AttrsFailureSticks | benchmarks/build-helpers/flow-bundler/src/transforms/transformJSX.js:149-183 | once an attribute throws, later attributes change nothing |
| JsxTransform.ConvertElementToProps | benchmarks/build-helpers/flow-bundler/src/transforms/transformJSX.js:144-204 | the loop over the attributes and the children entry return what `PropsOf` describes |
| JsxTransform.KeptChildren | benchmarks/build-helpers/flow-bundler/src/transforms/transformJSX.js:209 | the children kept are the ones not dropped |
| JsxTransform.ChildrenDoneMeaning | benchmarks/build-helpers/flow-bundler/src/transforms/transformJSX.js:209 | converting the children succeeds iff every child converts |
| JsxTransform.ChildrenFirstFailure | benchmarks/build-helpers/flow-bundler/src/transforms/transformJSX.js:209 | a failing conversion throws the error of the first child that fails |
| JsxTransform.ChildrenDone | benchmarks/build-helpers/flow-bundler/src/transforms/transformJSX.js:209 | on success there is one element per kept child, each its conversion |
| JsxTransform.ConvertChildrenMeaning | benchmarks/build-helpers/flow-bundler/src/transforms/transformJSX.js:206-217 | converting the children succeeds iff every child converts; a single kept child is returned alone, otherwise the kept children form an array |
| JsxTransform.ElementMeaning | benchmarks/build-helpers/flow-bundler/src/transforms/transformJSX.js:223-233 | an element becomes `jsx(type, props, key)`; attribute errors come first; props hold one entry per non-key attribute plus a last `children` entry exactly when there are children (see also lines 144-204) |
| JsxTransform.FragmentMeaning | benchmarks/build-helpers/flow-bundler/src/transforms/transformJSX.js:234-254 | a fragment becomes `jsx(Fragment, {children}, null)`, with `children: []` for an empty fragment, and converts iff all its children do |
| JsxTransform.SpreadAsWritten | benchmarks/build-helpers/flow-bundler/src/transforms/transformJSX.js:170-172 | as written, a spread attribute becomes a spread of its argument, left untouched |
| JsxTransform.SpreadAgrees | benchmarks/build-helpers/flow-bundler/src/transforms/transformJSX.js:170-172 | for an argument without JSX, the code as written and the corrected conversion agree |
| JsxTransform.SpreadKeepsJsx | benchmarks/build-helpers/flow-bundler/src/transforms/transformJSX.js:170-172 | for `<div {...{child: <br/>}} />` the code as written leaves the `<br/>` element in the output, while the corrected conversion removes it (see also lines 341-356) |
| WidgetTree.NatText | benchmarks/widgets/single-file/stripped/widgets.js:182 | the decimal text of a counter is non-empty, all digits, and has two digits or more from 10 up |
| WidgetTree.DigitInjective | benchmarks/widgets/single-file/stripped/widgets.js:182 | different digits print differently |
| WidgetTree.NatTextInjective | benchmarks/widgets/single-file/stripped/widgets.js:182 | different numbers print differently (see also line 245) |
| WidgetTree.Joined | benchmarks/widgets/single-file/stripped/widgets.js:182-183 | `${a}_${b}` is as long as `a` and `b` together plus one, with `_` right after `a` |
| WidgetTree.JoinedSplits | benchmarks/widgets/single-file/stripped/widgets.js:182-183 | when the right parts hold no `_`, equal joined strings have equal left and right parts |
| WidgetTree.NatTextNoUnderscore | benchmarks/widgets/single-file/stripped/widgets.js:182 | the decimal text of a number holds no `_` |
| WidgetTree.UnkeyedChildKeysDistinct | benchmarks/widgets/single-file/stripped/widgets.js:177-185 | two children without keys, named under one parent at different counter values, get different context keys whatever their class names |
| WidgetTree.Missing | benchmarks/widgets/single-file/stripped/widgets.js:120-125 | the filter by `!includes` keeps exactly the elements of the first list absent from the second, in order (see also lines 140-145) |
| WidgetTree.Ids | benchmarks/widgets/single-file/stripped/widgets.js:118-119 | the entity ids, one per entity, in order |
| WidgetTree.FirstIndex | benchmarks/widgets/single-file/stripped/widgets.js:97-113 | the first position of an id in a list: every earlier position holds a different id |
| WidgetTree.FirstIndexSnoc | benchmarks/widgets/single-file/stripped/widgets.js:97-113 | appending a new id keeps the first positions of the earlier ones and puts the new one last |
| WidgetTree.ComponentsOfMembers | benchmarks/widgets/single-file/stripped/widgets.js:97-113 | an entity id collects exactly the components of the entities with that id |
| WidgetTree.ComponentsOfAbsent | benchmarks/widgets/single-file/stripped/widgets.js:97-113 | an id that no entity has collects no components |
| WidgetTree.GroupedMeaning | benchmarks/widgets/single-file/stripped/widgets.js:97-113 | the grouping lists each id once, in first-seen order, maps exactly those ids, and maps each to the concatenated components of its entities in order |
| WidgetTree.NewRenderNode | benchmarks/widgets/single-file/stripped/widgets.js:190-195 | a render node keeps its key, id and components, and a missing children list becomes empty |
| WidgetTree.Reduce | benchmarks/widgets/single-file/stripped/widgets.js:196-201 | flattening a render tree puts the node's own entity first |
| WidgetTree.ReduceIds | benchmarks/widgets/single-file/stripped/widgets.js:196-201 | the ids of a tree's entities are exactly the ids in the tree |
| WidgetTree.ReduceAllIds | benchmarks/widgets/single-file/stripped/widgets.js:196-201 | the ids of a forest's entities are exactly the ids in the forest |
| WidgetTree.OldByKeyMeaning | benchmarks/widgets/single-file/stripped/widgets.js:84-85 | every old child's key is in the key map, and each key maps to the old child the rule picks among those with that key |
| WidgetTree.OldByKeyHas | benchmarks/widgets/single-file/stripped/widgets.js:84-85 | every old child's key is in the key map |
| WidgetTree.OldByKeyPicks | benchmarks/widgets/single-file/stripped/widgets.js:84-85 | each key maps to the old child the rule picks: the last one with that key for `Map.set`, the first one for `emplace` |
| WidgetTree.ReconciledChildren | benchmarks/widgets/single-file/stripped/widgets.js:86-94 | one output child per new child, in order, each reconciled with the old child of its key or kept as it is |
| WidgetTree.ReconciledShape | benchmarks/widgets/single-file/stripped/widgets.js:74-96 | reconciliation keeps the new tree's shape and keys, takes the old root's id, and introduces no id absent from both trees |
| WidgetTree.SameShapeReflexive | benchmarks/widgets/single-file/stripped/widgets.js:74-96 | every tree has its own shape |
| WidgetTree.RulesAgree | benchmarks/widgets/single-file/stripped/widgets.js:84-85 | when old sibling keys are distinct, the last-wins rule of `Map.set` and the first-wins rule of `emplace` reconcile to the same tree (see also widgets.cpp:345-348) |
| WidgetTree.RulesDiverge | benchmarks/widgets/single-file/stripped/widgets.js:84-85 | with two old children keyed `a`, the JavaScript version reuses the id of the second and the C++ version the id of the first (see also widgets.cpp:345-348) |
| WidgetTree.Tagged | benchmarks/widgets/single-file/stripped/widgets.js:128-133 | each component of one entity is paired with the entity's id, in order |
| WidgetTree.TaggedMembers | benchmarks/widgets/single-file/stripped/widgets.js:128-133 | a pair is tagged iff it carries that id and one of the components |
| WidgetTree.EntityPairsMembers | benchmarks/widgets/single-file/stripped/widgets.js:128-134 | the pairs pushed for the created entities are exactly the pairs of a created id with one of its new components |
| WidgetTree.ChangedPairsMembers | benchmarks/widgets/single-file/stripped/widgets.js:135-148 | for ids in both groupings, the created pairs are the components only in the new list and the deleted pairs those only in the old list |
| WidgetTree.DiffMeaning | benchmarks/widgets/single-file/stripped/widgets.js:114-154 | an entity is created iff its id is new and deleted iff its id is gone; a component is created iff its entity is new or it is new to a kept entity; deleted iff it left a kept entity (a deleted entity's components are not listed) |
| WidgetsJs.Context.constructor | benchmarks/widgets/single-file/stripped/widgets.js:173-176 | a context starts with its key and a zero child counter |
| WidgetsJs.Context.CreateForChild | benchmarks/widgets/single-file/stripped/widgets.js:177-185 | the child context's key is the parent key joined with the widget's key, or with `${class}_${counter}`; the parent counter moves on only for a widget without a key |
| WidgetsJs.RenderNodeIds.constructor | benchmarks/widgets/single-file/stripped/widgets.js:189 | the id counter starts at 0 |
| WidgetsJs.RenderNodeIds.Create | benchmarks/widgets/single-file/stripped/widgets.js:202-209 | the new node takes the context key and the current id, and the counter moves on by one |
| WidgetsJs.ReconcileRenderNode | benchmarks/widgets/single-file/stripped/widgets.js:74-81 | the method builds the reconciled tree with the last-wins key map |
| WidgetsJs.ReconcileChildren | benchmarks/widgets/single-file/stripped/widgets.js:82-96 | the loops build the reconciled children over the last-wins key map of the old children |
| WidgetsJs.MapEntitiesToComponents | benchmarks/widgets/single-file/stripped/widgets.js:97-113 | the loop builds the grouping of the entities |
| WidgetsJs.PushEntityPairs | benchmarks/widgets/single-file/stripped/widgets.js:128-134 | the loop pushes the created entities' pairs |
| WidgetsJs.PushChangedPairs | benchmarks/widgets/single-file/stripped/widgets.js:135-148 | the `newComponents.forEach` loop pushes the created and deleted pairs of the ids both trees have |
| WidgetsJs.DiffTrees | benchmarks/widgets/single-file/stripped/widgets.js:114-154 | the method returns the scene diff that `DiffMeaning` describes |
| WidgetsJs.GetWidgets | benchmarks/widgets/single-file/stripped/widgets.js:236-249 | unequal lengths throw; otherwise there is one ButtonAndModel per model, keyed `${model}_${size}` |
| WidgetsJs.GetWidgetsKeysDistinct | benchmarks/widgets/single-file/stripped/widgets.js:236-249 | widgets with different model paths or sizes get different keys |
| WidgetsCpp.ArrayMap | benchmarks/widgets/single-file/cpp/widgets.cpp:19-26 | one callback result per element, in order |
| WidgetsCpp.FilteredMembers | benchmarks/widgets/single-file/cpp/widgets.cpp:28-38 | an element survives the filter iff it is in the input and the callback keeps it |
| WidgetsCpp.FilteredNotIn | benchmarks/widgets/single-file/cpp/widgets.cpp:408-413 | filtering by `!arrayIncludes` computes the same list as the JavaScript filter (see also lines 443-450) |
| WidgetsCpp.ArrayFilter | benchmarks/widgets/single-file/cpp/widgets.cpp:28-38 | the loop keeps the elements the callback accepts, in order |
| WidgetsCpp.ArrayIncludes | benchmarks/widgets/single-file/cpp/widgets.cpp:40-46 | the search returns true iff the element is in the input |
| WidgetsCpp.ArrayConcat | benchmarks/widgets/single-file/cpp/widgets.cpp:56-65 | the two loops return the first array followed by the second |
| WidgetsCpp.Context.constructor | benchmarks/widgets/single-file/cpp/widgets.cpp:103-105 | a context starts with its key and a zero child counter |
| WidgetsCpp.Context.CreateForChild | benchmarks/widgets/single-file/cpp/widgets.cpp:107-124 | the corrected key: the parent key joined with the widget's key, or with `${name}_${counter}`; the parent counter moves on only for a widget without a key |
| WidgetsCpp.IntText | benchmarks/widgets/single-file/cpp/widgets.cpp:116 | `%d` prints a non-negative int as its digits and a negative one as `-` and its digits |
| WidgetsCpp.ChildKeyAsWritten | benchmarks/widgets/single-file/cpp/widgets.cpp:108-117 | a keyed widget's key is unaffected, and the unkeyed key is right only when the int read in place of the `double` counter happens to equal it |
| WidgetsCpp.UnkeyedChildKeysCollideAsWritten | benchmarks/widgets/single-file/cpp/widgets.cpp:116 | as written, two unkeyed siblings at counters 0 and 1 get the same key when the same int is read, while the intended keys differ |
| WidgetsCpp.RenderNodeIds.constructor | benchmarks/widgets/single-file/cpp/widgets.cpp:135 | the id counter starts at 0 |
| WidgetsCpp.RenderNodeIds.Create | benchmarks/widgets/single-file/cpp/widgets.cpp:157-162 | the new node takes the context key and the current id, and the counter moves on by one |
| WidgetsCpp.Reduce | benchmarks/widgets/single-file/cpp/widgets.cpp:147-155 | the nested loops flatten the tree as the JavaScript `reduce` does |
| WidgetsCpp.ReduceChildren | benchmarks/widgets/single-file/cpp/widgets.cpp:149-151 | the children's entities, concatenated in order |
| WidgetsCpp.ReconcileRenderNode | benchmarks/widgets/single-file/cpp/widgets.cpp:332-338 | the method builds the reconciled tree with the first-wins key map |
| WidgetsCpp.ReconcileChildren | benchmarks/widgets/single-file/cpp/widgets.cpp:340-360 | the loops build the reconciled children over the first-wins (`emplace`) key map of the old children |
| WidgetsCpp.MapEntitiesToComponents | benchmarks/widgets/single-file/cpp/widgets.cpp:376-396 | the loop builds the grouping of the entities, with ids in first-seen order |
| WidgetsCpp.PushAll | benchmarks/widgets/single-file/cpp/widgets.cpp:390-391 | the components are appended in order |
| WidgetsCpp.PushEntityPairs | benchmarks/widgets/single-file/cpp/widgets.cpp:419-430 | the loop pushes the created entities' pairs |
| WidgetsCpp.PushChangedPairs | benchmarks/widgets/single-file/cpp/widgets.cpp:432-462 | the `mapVectorForEach` loop pushes the created and deleted pairs of the ids both trees have |
| WidgetsCpp.ComponentChanges | benchmarks/widgets/single-file/cpp/widgets.cpp:443-450 | the deleted components are those absent from the new list, and the created ones those absent from the old list |
| WidgetsCpp.DiffTrees | benchmarks/widgets/single-file/cpp/widgets.cpp:398-465 | the method returns the same scene diff as the JavaScript `diffTrees` |

## Left out

General:
- Input and output are not modelled: the trace JSON sink, the output streams and the diagnostics engines. Diagnostics become values.
- The solver clock is not modelled.
- Floating-point numerics are not modelled.
- Memory management is not modelled: allocation, freeing and the garbage collector.
- Concurrency is not modelled.
- Calls into code that is not part of this model become parameters or stated assumptions, as listed below.

JSON lexer and synthetic traces:
- JsonLexer.ScanNumberMeaning: `hermes_g_strtod` is a parameter (`strtodLength`, how many code units it reads). The number's value is not modelled, only which text is accepted.
- JsonLexer.Lexer.constructor: JSONLexer.h is not part of this model. The constructor only sets the fields that `JSONLexer.cpp` reads.
- SynthTrace.TraceRecorder.FlushRecordsIfNecessary: the value of `kTraceRecordsToFlush` is set in SynthTrace.h, which is not part of this model. It is a parameter of the recorder.
- SynthTrace.TraceRecorder.FlushRecords: the JSON text of each record is left out. The sink is modelled as the sequence of records written to it.
- SynthTrace.DecodeID: the source's asserts on malformed IDs become `Err` results rather than aborts.
- SynthTrace.Decode: the source's asserts on a missing tag become `Err` results rather than aborts.

IR evaluation and graph passes:
- IREval.EvalBinary: IEEE-754 arithmetic for `+ - * / % **` is a parameter `arith`. The shifts and the bitwise operators are modelled through `truncateToInt32` and `truncateToUint32`.
- IREval numbers (`Num`) do not distinguish -0 from +0. Folds whose result depends on the sign of zero are therefore not told apart.
- TryRegions.LeaveBlock: where the source asserts that a current try and its recorded enclosing try exist (Analysis.cpp:316-337), `PoppedTry` returns None instead of stopping.
- SimplifyCfg.Parents, SimplifyCfg.CollectParents and SimplifyCfg.AttemptBranchRemovalFromPhiNodes: the predecessors come in block order. SimplifyCFG.cpp:84-101 takes them in the order of the use list (`getUsers`), which is not part of this model. That order decides the order in which phi entries are re-added.
- LoadConstants.MustBeLiteral: the per-operand roles of the instruction table (Instrs.def) are not part of this model. They are an explicit `Role` table.
- StackPromotion.StoreOnceValue: `isStoreOnceVariable` (IR utilities) is not part of this model. Its meaning is an assumed definition.
- `runSimpleStackPromotion` (SimpleStackPromotion.cpp:215-228) is only a driver over the functions of a module and is not modelled.
- Loops.FindLoopHeaders and Loops.ClassifyHeaders: `headerSets` is a DenseMap, which the classification walks in hash order. The model walks the blocks with header sets in finishing order. For a bad header this may change which entry holds it first, and so whether it got a preheader before it was found bad. GoodHeaderHasPreheader shows that good headers do not depend on the order.
- Loops.ClassifyHeaders: DominanceInfo is not part of this model. Dominance is a given relation (a set of pairs), and proper dominance is dominance between distinct blocks.
- TdzDedup and the analyses walk the dominator tree as given. Its construction is not part of this model.

Front end:
- SemanticResolver.RedeclarationRules: the declaration kinds and their let-like and var-like classification live in SemContext.h, which is not part of this model. They are an explicit enumeration with the classification the source's names imply.
- SemanticResolver.VisibilityOf: the order Default < ShowSource < HideSource < Sensitive is assumed from the enumeration in a header that is not part of this model.
- SemanticResolver.ExtractDeclaredIdentsFromID: the "invalid destructuring target" errors are returned as a count; their source ranges are not modelled. The `ComponentParameterNode` case is modelled as in a build with Flow parsing enabled (SemanticResolver.cpp:2210-2214).
- SemanticResolver.Declare: this is the decision alone. The binding-table update, the bookkeeping of promoted functions and the restricted-global check are left out.
- IrGen.Scaffold: the callbacks of `emitTryCatchScaffolding` are treated as pure emitters of straight-line code. Callbacks that touch the builder's state otherwise are not modelled.
- FlowChecker.IsEqual: llvh's ArrayRef.h is not part of this model. Its `operator==` is taken to compare contents element by element.
- FlowChecker.GenericInfo.constructor: it takes the equality of type arguments as a parameter, not the node, parent and scope.
- Ts2Flow.Converter.Visit: the walk does not descend into TypeScript or Flow nodes met outside a node list. The source visits their children too, which only changes which diagnostics a failing run reports.
- Ts2Flow: the class property key is not converted. Source ranges and the recursion-depth error are left out.
- Ts2Flow: identifier nodes that are updated in place and reused as names are modelled as fresh `Identifier` values.

Tables and layouts:
- RegexTable.UniquingRegExpTable.AddRegExp: requires fewer than 2^32 regexps. With more, `safePossiblyNarrowingCast` stops with the fatal error "Too many regular expressions", which is not modelled. The buffer size and the bytecode size are not bounded: the entry holds them truncated to 32 bits, as the `(uint32_t)` casts do.
- BytecodeLayout: the BytecodeModule destructor and the debug-info `populateSourceMap` call are not modelled.
- TableGenHeader.PrintLine: lengths are counted in characters, while the source's StringRef counts bytes. This agrees for ASCII descriptions.

Heap and cell kinds:
- HeapSegment.AlignedHeapSegment.Alloc: the storage size `KSize` is fixed at 4 MiB, a log size of 22. In the source, `HERMESVM_LOG_HEAP_SEGMENT_SIZE` is a build setting with no default (AlignedHeapSegment.h:31-33, 64-65). Other sizes are not modelled.
- HeapSegment: the `Contents` layout, the guard pages, the card table, `cells()` and the `create`/`newStorage` factories are left out. The debug-build `isValid` checks are not modelled either.
- HeapSegment.AlignedHeapSegment.SetLevel: this is the release-build form. The debug-build `clear()` of freed memory is not modelled, and the page size is a constant of the model.
- CellKind.CallableRangesPartition: CellKinds.def is not part of this model. The kind layout is a record of range bounds with the order the static asserts of CellKind.h demand.

JSX transform:
- JsxTransform.IntrinsicNames: `toLowerCase` is modelled for Latin-1 only (ToLower). A name beginning with a capital beyond Latin-1, such as Greek or Cyrillic, is classified differently from the source. IsIntrinsic carries the same limit.
- JsxTransform.PropertyKey: attribute names are plain identifiers. The model cannot represent a namespaced attribute name `a:b`, on which transformJSX.js:158 would throw a TypeError.
- JsxTransform.TransformExpr: hermes-transform's `SimpleTransform` is not part of this model. It is taken as a pre-order replacement, left to right, that does not revisit a replaced node.
- JsxTransform.AttrValueExpr: attribute literals are string literals.

Widgets:
- WidgetsJs.ReconcileChildren and WidgetsCpp.ReconcileChildren: the JavaScript version keeps the last old child per key (`Map.set`) and the C++ version the first (`emplace`). Each is modelled as written. RulesAgree and RulesDiverge relate the two.
- WidgetsJs.GetWidgets: sizes are whole numbers, as in the benchmark's tables. The C++ `getWidgets` (widgets.cpp:290-306) is not modelled separately. It prints its `double` size with `%d`, the same fault as the finding on widgets.cpp:116.
- Widget `reduce` methods that build components from sizes (`Math.sqrt`) are not modelled. Components are opaque values.

## Findings

| source | as written | input that shows it | evidently intended | confidence | as-written member | corrected member |
|---|---|---|---|---|---|---|
| lib/VM/JSLib/JSONLexer.cpp:101 | `consumeUnicode` ORs each code unit with 32 before testing it against `'0'..'9'` and `'a'..'f'`. So the control characters U+0010 to U+0019 are taken as the digits 0 to 9. | `"\u` followed by four U+0010 code units lexes as the escape U+0000 instead of an error | only `0-9`, `a-f` and `A-F` are hex digits (section 7 of RFC 8259) | not executed | JsonLexer.HexDigit, with JsonLexer.ControlCharIsHexDigit and JsonLexer.ControlCharsInUnicodeEscapeAccepted | JsonLexer.RfcHexDigit |
| API/hermes/SynthTrace.cpp:90-108 | `TraceValue::operator==` falls into its `default: return true` for the BigInt and Symbol tags, which also carry a uid | `BigInt(1) == BigInt(2)` and `Symbol(1) == Symbol(2)` are both true | values with a uid compare by uid, like Object, String and PropNameID | not executed | SynthTrace.Equal, with SynthTrace.DistinctBigIntsCompareEqual | SynthTrace.EqualByUid, with SynthTrace.EqualByUidIsIdentity |
| lib/Sema/FlowChecker.h:38-53 | `isEqual` tests the keys against the empty and tombstone sentinels with ArrayRef `operator==`, which compares contents. Both sentinels have length 0. | the empty key equals the tombstone key, and also equals any zero-length type-argument list | sentinels are recognised by their identity, so a real empty list is never mistaken for one | not executed | FlowChecker.IsEqual, with FlowChecker.SentinelsCollide | FlowChecker.KeysEqual, with FlowChecker.KeysEqualMeaning; the specialisation table uses it |
| lib/AST/TS2Flow.cpp:331 | `convertIdentifierToFunctionTypeParam` applies `llvh::dyn_cast` to the result of `convertTSNode`. That result is null when the identifier has no annotation or its conversion failed, and `dyn_cast` requires a non-null argument. | the function type `(x) => void`, whose parameter `x` has no annotation | a null result is tested first (`dyn_cast_or_null`), and the "failed to convert type annotation" error is reported | not executed | Ts2Flow.IdParamAsWritten, with Ts2Flow.UnannotatedParamDereferencesNull | Ts2Flow.IdParamConverted |
| benchmarks/build-helpers/flow-bundler/src/transforms/transformJSX.js:171 | a spread attribute becomes a spread of `attribute.argument` as it stands. The visitors skip traversal of the replacement, so JSX inside the argument is never converted. | `<div {...{child: <br/>}} />` keeps the `<br/>` element in the output | the spread argument is transformed like every other expression | not executed | JsxTransform.SpreadAsWritten, with JsxTransform.SpreadKeepsJsx | JsxTransform.AttrProp, the spread conversion that JsxTransform.ConvertNode and the rest of the transform use |
| benchmarks/widgets/single-file/cpp/widgets.cpp:116 | `sprintf(buf, "%s_%d", name, parentCtx->childCounter++)` hands a `double` to `%d`, which is undefined behaviour. The text printed is whatever int is read in its place. | two unkeyed siblings at counters 0 and 1 get the same key whenever the same int is read | the counter is printed as an integer, so unkeyed siblings get distinct keys | not executed | WidgetsCpp.ChildKeyAsWritten, with WidgetsCpp.UnkeyedChildKeysCollideAsWritten | WidgetsCpp.Context.CreateForChild |
