# hs2client: a verified model of its hardest logic

hs2client is a client library for HiveServer2: a C++ core, Python bindings, and a bundled copy of the C++
linter that guards its sources. This project models the parts of it where a small step can break a property
that spans many steps, and proves those properties for all inputs.

* **Brackets, Scanner, Matching, Templates, TemplatesBack, Angles, AnglesBack, TextInside** – the linter's bracket scanners. `Brackets` is
  a reference that knows only hard brackets: a grammar of balanced words, a stack machine for it, and a mirror
  image that turns a forward reading into a backward one. `Scanner` holds the scanners, with their tentative
  template brackets and look-behind rules. `Matching` shows that from a hard bracket both scanners agree with the
  reference on the whole text, and that each undoes the other. `Templates` and `Angles` bound what happens from
  a `<`: what success guarantees, and text on which success is guaranteed. `TemplatesBack` and `AnglesBack` do the
  same from a `>`, with the text on which the two scans undo each other.
* **Preprocessor, Nesting** – the linter's nesting stack. `Preprocessor` treats it as a value and shows that
  `#else` parts have no lasting effect on any file. `Nesting` is the object form, where blocks are changed in
  place and checkpoints are copies; every method is proved to do what the value form says.
* **Collapse** – the linter's collapsing of string and character literals.
* **PyString, Escape, Decimal, Markers, Numbered, Binding** – parameter binding of the Python DB API layer. For
  numbered markers `Numbered` has the loop and a single-pass reference, `Rounds` says exactly when a round of the
  loop is a step of the reference, `Colons` and `GuardedText` exactly when the whole loop is, for parameters without
  colons and for texts, `NumberedLoop` has the method, and `NumberedCases` the inputs on which numbers are extended.
  `Weights` shows why no later replacement undoes an earlier one, `Binding` has the three passes and exactly when the
  later ones leave a finished statement alone, `Styles` compares the three styles, and `BindingCases` has the calls
  that go wrong.
* **Columns, Fetch, Interning, Rpc** – fetched column chunks, the fetch loop, and their conversion to arrays.
* **Lifecycle, DropOrder, Waiting, Table** – session and operation handles, the order in which Python objects are
  closed, polling with back-off, and the result table printer.

`dafny verify dfyconfig.toml` checks the whole project.

## What turned out not to hold

* Binding documents an error for a wrong number of parameters (python/hs2client/dbapi.py:195-196). The loop
  searches inserted text again, so `?` with the text parameters `?` and `x` is accepted and becomes `''x''`
  (`BindingCases.WrongCountAccepted`). `Markers.QuestionMarksExact` says exactly when the loop accepts: there is no
  marker, or the markers, those inside parameters included, run out at the last parameter and not before. For
  either marker and any parameters, `Markers.PositionalMarkers` says that too many markers always fail, and that the
  right number of them succeeds exactly if the statement with the parameters in its gaps holds no marker.
* Each pass searches the output of the one before (python/hs2client/dbapi.py:219-227), so text inserted for `?` or
  `%s` is searched again for `%s` and for `:1`, `:2`, and so on: `?` with the one text `:1` becomes `'':1''`
  (`BindingCases.NumberInText`), and a time such as `12:15:00` is damaged in the same way. For missing values, texts
  and integers, `Binding.QuestionStyleExact` and `Binding.FormatStyleExact` say exactly when a statement with the right
  number of markers becomes the intended one: if that holds no marker of any kind.
* Replacing numbered markers from the largest down is meant to keep smaller numbers out of larger ones
  (python/hs2client/dbapi.py:223-224). It can still replace a number that it has put together itself: `::2` with
  the numbers 5 and 1 becomes `5` (`BindingCases.NumberPutTogether`). For any parameters,
  `Rounds.RoundExact` says exactly when a round does what the single pass does: its marker occurs in the text only
  where the statement has it. For texts and missing values, colons or not, this condition for all rounds is exact for
  the result as well (`Styles.NumericStyleExact`). For parameters without colons, `Colons.DescendExact` says exactly
  when the loop is the pass, provided that inserted digits never extend a number of the statement: no colon that
  names no parameter is followed by the number of the round. Up to ten parameters the proviso always holds
  (`Colons.FewNamesStand`). From eleven on numbers can be extended (`NumberedCases.ElevenExtends`), and from
  twenty-one on two such accidents can make up for a third (`NumberedCases.TwentyOneCancel`), so that without the
  proviso the condition is necessary only at the first round that goes wrong (`Colons.CaughtIsLost`).
* The backward scanner is documented as almost the reverse of the forward one (build-support/cpplint.py:1510-1511).
  From hard brackets it is exactly that; from template brackets it is not: in `x<y >= z` the forward scan from `<`
  stops behind `>`, and the backward scan from that `>` finds nothing (`AnglesBack.NotInverse`). Where the text is
  well nested and reads the same from both ends, it is (`AnglesBack.ReverseUndoesStrictClose`).
* `Session::Open` called again on an open session can fail and leave the session open
  (`Lifecycle.ReopenInVain`): an ok status and an open session coincide afterwards exactly if the session was
  closed before or the call succeeded (`Lifecycle.Session.Open`), and they coincide for every reply exactly if it was closed before
  (`Lifecycle.AgreesIffClosed`). If it succeeds, the first handle is overwritten
  and never closed (`Lifecycle.ReopenLosesHandle`).
* A comment in the linter says that stack entries are never changed in place, so that remembering the previous top
  needs no copy (build-support/cpplint.py:2388-2390). A line with an open parenthesis changes the remembered block
  (`Nesting.NestingState.OpenParenthesis`). `Nesting.NestingState.Update` says what the fields of that block are
  afterwards, and `Preprocessor.TopChanges` exactly when its count of open parentheses, or any field, differs.
* All rows of a printed table are meant to line up. A BINARY column is only as wide as its name
  (src/hs2client/util.cc:163-166), so a longer cell sticks out (`Table.BinarySticksOut`), and a row lines up if and
  only if none of its BINARY cells is longer than the name (`Table.TableWidths`).

## Model

| member | source | states |
|---|---|---|
| `Brackets.BalancedIffRun` | build-support/cpplint.py:1420-1434 | the stack discipline for `( [ {` accepts exactly the words of the balanced grammar |
| `Brackets.GroupIffMirror` | build-support/cpplint.py:1510-1511 | a shortest balanced stretch read backward with brackets flipped is again one; this is why the backward scanner can be the reverse of the forward one |
| `Scanner.FindEndOfExpressionInLine` | build-support/cpplint.py:1398-1460 | the forward loop over a line, with its stack updates and early exits, computes the line-scan function that the theorems are about |
| `Scanner.PopWhile` | build-support/cpplint.py:1424-1425 | discarding pending template brackets removes exactly the run on top of the stack |
| `Scanner.OperatorIff` | build-support/cpplint.py:1411-1440 | the search for `operator` in front of a bracket finds the word, at a word boundary, followed by blanks only |
| `Scanner.FindStartOfExpressionInLine` | build-support/cpplint.py:1522-1581 | the backward loop computes its line-scan function; which characters it skips is stated by `AnglesBack.ReverseFindsMatch` |
| `Matching.ForwardLineIsHardScan` | build-support/cpplint.py:1398-1460 | on a stack with a hard bracket at the bottom, one line does to the hard brackets exactly what the reference does; `<`, `>`, shifts, arrows, `operator<` and `;` never change it |
| `Matching.BackwardLineIsHardScan` | build-support/cpplint.py:1522-1581 | the same for the backward scan, against the reference on the mirrored line |
| `Matching.CloseExact` | build-support/cpplint.py:1463-1504 | from any `(`, `[`, `{` the result is the end of the first balanced prefix of the rest of the file, and failure means that no prefix is balanced, across any number of lines |
| `Matching.ReverseExact` | build-support/cpplint.py:1584-1619 | from any `)`, `]`, `}` the result is the start of the shortest balanced suffix of the text so far, and failure means that there is none |
| `Matching.ReverseUndoesClose` | build-support/cpplint.py:1463-1619 | after a successful forward match the backward match from the bracket found returns to the original place, and that bracket is the partner of the first |
| `Matching.CloseUndoesReverse` | build-support/cpplint.py:1463-1619 | after a successful backward match the forward match returns just past the original bracket |
| `Matching.CloseExpression` | build-support/cpplint.py:1487-1504 | the loop over lines returns the closing place, or the number of lines and -1; for hard brackets with the exactness above; it refuses any other character, and a `<` in front of another one or of `=` |
| `Matching.ReverseCloseExpression` | build-support/cpplint.py:1602-1619 | the loop over lines, upward, returns the opening place, or 0 and -1; for hard brackets with the exactness above; it refuses any other character but `>` |
| `Templates.CloseTemplate` | build-support/cpplint.py:1403-1457 | a `<` that starts a list and is matched ends at a `>`; what is enclosed is balanced in hard brackets, and no `;` stands outside them, across lines |
| `TemplatesBack.ReverseTemplate` | build-support/cpplint.py:1526-1577 | backward: a `>` that ends a list and is matched starts at a `<`; what is enclosed is balanced in hard brackets, and no `;` stands outside them, across lines |
| `Angles.CloseFindsMatch` | build-support/cpplint.py:1398-1504 | conversely, where the four kinds of brackets are well nested from an opening bracket on, with shifts, arrows and `operator` names blanked, the scanner finds exactly the matching one |
| `AnglesBack.ReverseUndoesStrictClose` | build-support/cpplint.py:1463-1619 | from an opening bracket of any of the four kinds, if the text is well nested up to its partner and reads the same from both ends, forward and then backward returns to it |
| `AnglesBack.ReverseFindsMatch` | build-support/cpplint.py:1522-1581 | backward from any closing bracket: with every `<<`, `->`, spaced `>=` and `operator>` blanked from the right, where the four kinds of brackets are then well nested the scanner finds exactly the matching one, across lines |
| `AnglesBack.NotInverse` | build-support/cpplint.py:1529-1539 | a line on which forward and then backward from a template bracket finds nothing |
| `TextInside.GetTextInside` | build-support/cpplint.py:4704-4732 | the third matcher returns the text up to the bracket that the forward scanner finds, and None exactly when that finds none or the pattern did not match |
| `Preprocessor.HeightIsBraceDepth` | build-support/cpplint.py:2399-2537 | on a line whose declarations open their own braces, the height of the stack follows the brace depth and no block is left waiting for a brace; a class that is not pushed, such as a template argument, is no declaration |
| `Preprocessor.NamespacesAre` | build-support/cpplint.py:2425-2440 | each namespace of a line becomes a block, in order, open if its brace is there |
| `Preprocessor.ClassBecomesTop` | build-support/cpplint.py:2447-2485 | the block of a class head: name, kind, default or given access, base clause, brace |
| `Preprocessor.ClassNotDeclared` | build-support/cpplint.py:2451-2463 | inside parentheses or template arguments the class pattern changes nothing |
| `Preprocessor.DeclarationLeavesNothing` | build-support/cpplint.py:2522-2532 | a class that is only declared, or named in the arguments of a function, leaves nothing on the stack |
| `Preprocessor.BraceOpensBlock` | build-support/cpplint.py:2512-2521 | another opening brace opens a block, marked for `extern "C"` or assembly |
| `Preprocessor.TopAccess` | build-support/cpplint.py:2480-2487 | an access keyword counts for the class on top, and for nothing else |
| `Preprocessor.AssemblyBegins` | build-support/cpplint.py:2407-2416 | assembly begins on a line that looks like it and brings the count from another number to one |
| `Preprocessor.AssemblyLasts` | build-support/cpplint.py:2407-2420 | over any lines it goes on until the count is back at zero, and has ended then |
| `Preprocessor.ElsePartHasNoEffect` | build-support/cpplint.py:2327-2372 | for a well-nested conditional, stack and checkpoints after `#endif` are those of a run without the lines from the first `#else`/`#elif` up to the `#endif` |
| `Preprocessor.ElseSeesNoBranch` | build-support/cpplint.py:2344-2357 | the lines of an `#else` part change the stack as if the `#if` and its branch were not there |
| `Preprocessor.LaterBranchSeesNone` | build-support/cpplint.py:2344-2357 | the same for a later `#elif` or `#else`: all branches before it are gone |
| `Preprocessor.StripPreservesNesting` | build-support/cpplint.py:2327-2372 | for every sequence of lines, nested or stray directives included: the run and the run without all `#else` parts are in lockstep, and equal whenever no open conditional is in its `#else` part |
| `Preprocessor.FollowTopCounts` | build-support/cpplint.py:2388-2420 | after the parenthesis count of a line, nothing on that line changes the count or the assembly state of the block that was on top |
| `Preprocessor.TopChanges` | build-support/cpplint.py:2388-2537 | exactly when a line changes the parenthesis count of the block that was on top, and exactly when it changes any of its fields |
| `Nesting.DeepCopy` | build-support/cpplint.py:2342-2357 | a copied stack consists of new, distinct blocks with the same field values |
| `Nesting.Block.CountParentheses` | build-support/cpplint.py:2401-2420 | the parenthesis count and the inline assembly state after a line, changed in place |
| `Nesting.NestingState.UpdatePreprocessor` | build-support/cpplint.py:2339-2372 | each directive does to the objects what it does to the values, at an `#else` the stack is that from before the `#if` again, and stack and checkpoints never share a block |
| `Nesting.NestingState.Consume` | build-support/cpplint.py:2507-2537 | one brace, semicolon or parenthesis changes only the top of the stack |
| `Nesting.NestingState.Update` | build-support/cpplint.py:2375-2537 | a line changes the objects as its value step says and leaves every checkpoint as it was; the previous top is remembered, with its exact fields after the line |
| `Nesting.NestingState.OpenParenthesis` | build-support/cpplint.py:2388-2404 | a line after which the remembered block is not as it was |
| `Nesting.NestingState.UpdateAll` | build-support/cpplint.py:2375-2537 | over a whole file the objects end as the run over values says, and therefore as the run without `#else` parts |
| `Nesting.NestingState.UpdateElse` | build-support/cpplint.py:2344-2537 | reading a file up to a place inside an `#else` part leaves the objects as the file without the `#if` and its branch |
| `Collapse.CollapseStrings` | build-support/cpplint.py:1337-1382 | the loop ends, because the rest gets shorter in every round, and computes the collapsed line |
| `Collapse.CollapseShape` | build-support/cpplint.py:1345-1382 | the result has only adjacent quote pairs, followed by at most an untouched end of the line whose first quote is not closed |
| `Collapse.LiteralEmptied` | build-support/cpplint.py:1352-1376 | a string or character literal becomes an empty one, and the rest of the line is collapsed |
| `Collapse.UnclosedKept` | build-support/cpplint.py:1357-1380 | from a quote that is not closed on, the line stays as it is |
| `Collapse.SeparatorsRemoved` | build-support/cpplint.py:1370-1373 | behind a number the digit separators go and all digits stay |
| `Collapse.LastWordIsNumber` | build-support/cpplint.py:1370 | the quote is a separator exactly if the last word in front of it is a number |
| `Collapse.NumberIff` | build-support/cpplint.py:1370 | a number is a beginning such as `0x` or a digit, and hexadecimal digits |
| `Collapse.CollapseIdempotent` | build-support/cpplint.py:1345-1382 | collapsing a collapsed line changes nothing |
| `Escape.EscapeIsOnePass` | python/hs2client/dbapi.py:274-281 | the five replacements over the whole text are one map over its characters |
| `Escape.RoundTrip` | python/hs2client/dbapi.py:274-281 | reading backslash pairs gives the text back |
| `Escape.EscapeInjective` | python/hs2client/dbapi.py:274-281 | different texts have different escaped forms |
| `Escape.LiteralEndsAtAddedQuote` | python/hs2client/dbapi.py:236-237 | a reader that starts behind the opening quote and skips backslash pairs stops exactly at the quote that was added, whatever follows |
| `Escape.EscapedIsClean` | python/hs2client/dbapi.py:274-281 | an escaped text holds no line end, and no quote or backslash outside its pairs |
| `PyString.SplitJoin` | python/hs2client/dbapi.py:201-203 | cutting a statement at its markers and putting them back restores it |
| `Markers.ReplaceMarkers` | python/hs2client/dbapi.py:198-216 | the loop ends; a statement that is returned holds no marker, and it is the operation, which had none, or every parameter replaced a marker that was there; an error tells how many were replaced, and that a marker is left exactly if they were all used |
| `Markers.PositionalMarkers` | python/hs2client/dbapi.py:198-220 | for either marker and any parameters: more markers than parameters fail; as many succeed exactly if the statement with the parameters in its gaps holds no marker, and give that; with fewer, if the text with the first parameters holds no marker, it fails unless there was no marker at all |
| `Markers.QuestionMarksExact` | python/hs2client/dbapi.py:198-219 | for any parameters, exactly when a question mark statement is accepted, by conservation of the number of question marks |
| `Markers.MatchingCount` | python/hs2client/dbapi.py:198-219 | with as many markers as parameters, it is accepted if and only if no parameter holds a question mark |
| `Rounds.Round` | python/hs2client/dbapi.py:225-227 | if the marker of a round occurs only where the statement has it, the round turns the pass over larger numbers into the pass that includes this number |
| `Rounds.RoundExact` | python/hs2client/dbapi.py:225-227 | for any statement and parameters the converse too: otherwise the two texts differ, unless the parameter is its own marker |
| `Colons.CalmIffUndisturbed` | python/hs2client/dbapi.py:225-227 | if no parameter but the first holds a colon, that condition is about the colons of the statement: none with a smaller number, or without one, is followed by the number of the round |
| `Colons.CaughtIsLost` | python/hs2client/dbapi.py:225-227 | if in the first round that goes wrong a colon without a number is replaced, the loop ends with fewer colons than the pass |
| `Colons.DescendExact` | python/hs2client/dbapi.py:222-228 | for parameters without colons, and if inserted digits extend no number of the statement: the loop is the pass if and only if no colon without a number is ever followed by the number of the round |
| `Colons.FewNamesStand` | python/hs2client/dbapi.py:222-228 | with at most ten parameters inserted digits extend no number |
| `GuardedText.GuardedExact` | python/hs2client/dbapi.py:222-228 | for any number of parameters that start with no digit and hold a character that no marker has, colons or not: the loop is the pass if and only if in every round the marker occurs only where the statement has it |
| `NumberedLoop.DescendIsPass` | python/hs2client/dbapi.py:222-228 | a simple sufficient condition: no parameter but the first holds a colon, and either these start with a character that is not a digit or no marker is directly followed by a colon |
| `NumberedLoop.ReplaceNumbered` | python/hs2client/dbapi.py:222-228 | the descending loop, and with it all of the conditions above for being one pass that takes the longest number at each colon |
| `NumberedCases.ElevenExtends` | python/hs2client/dbapi.py:222-228 | eleven parameters for which an inserted digit extends a number: the loop gives the tenth parameter, the pass the first and the eleventh |
| `NumberedCases.TwentyOneCancel` | python/hs2client/dbapi.py:222-228 | twenty-one parameters and the statement `::2:21:1:1:21`, for which the results agree although a colon without a number is followed by one in the pass |
| `Binding.BindParametersList` | python/hs2client/dbapi.py:231-242 | every value stands for itself in the statement: `NULL`, its own text, or a quoted literal that reads back as the text and ends at its last quote whatever follows; with as many question marks as values these stand in the gaps, if the result holds no marker |
| `Binding.BindOneText` | python/hs2client/dbapi.py:231-242 | a statement with one question mark and one text: the text stands there as a literal that reads back and ends at its quote |
| `Binding.LiteralsRead` | python/hs2client/dbapi.py:233-239 | every literal reads as its value |
| `Binding.QuestionStyle` | python/hs2client/dbapi.py:218-228 | a statement with as many question marks as parameters becomes the one with the parameters in its gaps if that holds no marker of any kind, and only then if no parameter can undo a replacement |
| `Binding.QuestionStyleExact` | python/hs2client/dbapi.py:218-242 | for missing values, texts and integers: if and only if |
| `Binding.FormatStyle` | python/hs2client/dbapi.py:218-228 | the same for `%s`, where a parameter may hold a question mark |
| `Binding.FormatStyleExact` | python/hs2client/dbapi.py:218-242 | for missing values, texts and integers: if and only if |
| `Weights.DescendMoves` | python/hs2client/dbapi.py:225-227 | the loop over numbers gives a text back only if it holds no number, because every replacement adds characters that no marker has or takes away a colon |
| `Styles.StylesAgree` | python/hs2client/dbapi.py:190-228 | whatever the parameters are: if the statement with the parameters in its gaps holds no marker, it is what the question mark, the format and the numeric style give |
| `Styles.NumericStyleExact` | python/hs2client/dbapi.py:222-242 | for texts and missing values a numbered statement becomes the single pass if and only if in every round the marker occurs only where the statement has it |
| `BindingCases.WrongCountAccepted` | python/hs2client/dbapi.py:195-216 | a wrong number of text parameters that is accepted, with the resulting statement |
| `BindingCases.NumberInText` | python/hs2client/dbapi.py:218-227 | a text parameter that goes in again for the number inside it |
| `BindingCases.NumberPutTogether` | python/hs2client/dbapi.py:222-228 | a statement and two numbers for which the loop differs from the single pass |
| `Columns.GetBitIsIsNull` | python/hs2client/converters.h:38-46 | the mask table and the shift of `Column::IsNull` read the same bit, for every index |
| `Columns.NullBitIsSet` | python/hs2client/converters.h:38-46 | a row is null if its bit, counted from the lowest of its byte, is set |
| `Columns.ChunkRows` | python/hs2client/converters.h:63-73 | the rows of a chunk are a consecutive stretch of the flat rows, starting after those of the chunks before |
| `Columns.FillNative` | python/hs2client/converters.h:91-106 | the first pass reports a null exactly if there is one, and otherwise has written every slot with its row |
| `Columns.ConvertInteger` | python/hs2client/converters.h:75-130 | a native array if and only if no row of any chunk is null; otherwise doubles with NaN exactly at the nulls; one slot for each row, in order |
| `Columns.ConvertBoolean` | python/hs2client/converters.h:132-191 | the same for booleans, with None for nulls |
| `Fetch.FetchAll` | python/hs2client/ext.pyx:278-289 | the fetch loop raises the status of the first reply that failed, if none before it was the last, has the batches up to the first that announces no more rows, or waits; each exactly then |
| `Fetch.CollectEnds` | python/hs2client/ext.pyx:278-289 | the outcome by the first reply that fails or announces no more rows |
| `Fetch.CollectsAllRows` | python/hs2client/ext.pyx:278-289 | against any server that says "more" while rows remain, a finished loop has exactly all rows in order, and an unfinished one a prefix of them |
| `Fetch.BatchIndependence` | python/hs2client/ext.pyx:239-252 | batch sizes and cuts do not change the rows |
| `Columns.IntegersDetermined` | python/hs2client/converters.h:75-130 | there is only one array that shows given rows, native or with NaN |
| `Columns.BooleansDetermined` | python/hs2client/converters.h:132-191 | the same for booleans |
| `Fetch.FetchIntegers` | python/hs2client/ext.pyx:239-289 | fetching and converting gives an array exactly if a reply without more rows comes and none before it failed, and it shows all rows of the server |
| `Fetch.FetchBooleans` | python/hs2client/ext.pyx:239-289 | the same for booleans |
| `Fetch.FetchTwice` | python/hs2client/ext.pyx:239-289 | two finished fetches of the same rows, with any batch sizes and cuts, give equal arrays |
| `Interning.Interpreter.MakePystring` | python/hs2client/converters.h:193-222 | one new reference for the caller to the object of this string, two more for a new table entry, and no other count changes |
| `Interning.Interpreter.ReleaseTable` | python/hs2client/converters.h:260 | releasing the table takes its two references from each of its strings and from nothing else |
| `Interning.ConvertString` | python/hs2client/converters.h:224-263 | equal strings and only those share an object, contents match the rows, nulls are None, every reference count grows by the number of slots that hold the object, and unshared strings get new objects |
| `Rpc.TStatusToStatus` | src/hs2client/thrift-internal.cc:139-163 | the status code for each code of the server, the info messages joined by commas, the error message for an error, and the number for an unknown code |
| `Rpc.OkIffPasses` | src/hs2client/thrift-internal.h:69-84 | a call returns an ok status exactly if its reply is a response with one of the two success codes, and the text of an exception otherwise |
| `Lifecycle.Session.Open` | src/hs2client/session.cc:53-64 | new state, status and request for every reply; the returned status is ok exactly on a successful reply, and when that coincides with being open |
| `Lifecycle.AgreesIffClosed` | src/hs2client/session.cc:53-64 | status and open flag agree after Open for every reply if and only if it was not open before |
| `Lifecycle.ReopenInVain` | src/hs2client/session.cc:53-64 | an open session after a call of Open that is not ok |
| `Lifecycle.Session.Close` | src/hs2client/session.cc:40-51 | new state, status and request for every reply; ok exactly if the session is closed afterwards, and the handle is kept |
| `Lifecycle.Operation.Open` | src/hs2client/session.cc:71-85 | the same for an operation, which remembers its session's handle only on success |
| `Lifecycle.Operation.Close` | src/hs2client/operation.cc:120-131 | ok exactly if the operation is closed afterwards, and both handles are kept |
| `Lifecycle.ExecuteStatement` | src/hs2client/session.cc:93-98 | the new operation is open exactly if the status is ok, and belongs to the session |
| `Lifecycle.ClosesAnswerOpens` | src/hs2client/session.cc:40-64 | for any number of sessions and operations on one wire, any interleaving of their calls and any replies, a handle is closed successfully at most as often as it was granted, and every open object has one grant left |
| `Lifecycle.ClosedAtMostOnce` | src/hs2client/operation.cc:120-131 | a handle that was granted once is closed successfully at most once, by whichever objects |
| `Lifecycle.PerformAll` | src/hs2client/session.cc:40-85 | calls of any sessions and operations that share a wire leave the objects and the log of the run, so that the log closes nothing more often than it was granted |
| `Lifecycle.NotHeldNotClosed` | src/hs2client/session.cc:40-51 | a handle that no object holds is not closed, not even in vain, unless the server grants it again |
| `Lifecycle.ReopenLosesHandle` | src/hs2client/session.cc:53-64 | a successful second open overwrites the handle, and no later call of any object closes the first one |
| `Lifecycle.RetriesSendTheSameHandle` | src/hs2client/session.cc:40-51 | repeated closes all send the opened handle until one succeeds, and nothing after that |
| `DropOrder.ReleaseKeepsInv` | python/hs2client/ext.pyx:86-93 | giving back a reference, with the cascade of closes it may cause, keeps every count equal to the user's references and the live children |
| `DropOrder.DropCloses` | python/hs2client/ext.pyx:86-139 | dropping a reference takes just that one from the user, and closes just the chain of ancestors whose last reference goes with it, children first |
| `DropOrder.OthersCloseNothing` | python/hs2client/ext.pyx:88-139 | no other action closes anything, except an explicit close, which closes just its operation |
| `DropOrder.RunIsBooked` | python/hs2client/ext.pyx:97-165 | over every run, the objects and the references that the user holds are those of a ledger without reference counts |
| `DropOrder.AliveIffHeld` | python/hs2client/ext.pyx:86-139 | after every run an object is alive exactly if the user holds it or something below it, and a service or session has been closed exactly if not |
| `DropOrder.ClosedBeforeParent` | python/hs2client/ext.pyx:126-139 | for any objects and any order of user actions, nothing is closed after its parent or twice |
| `DropOrder.OwnedIsOpen` | python/hs2client/ext.pyx:126-139 | an object that the user holds is alive, and still open unless it is an operation that was closed explicitly |
| `DropOrder.NothingLeftOpen` | python/hs2client/ext.pyx:201-209 | once the user holds nothing, everything has been closed |
| `Waiting.Wait` | python/hs2client/ext.pyx:312-324 | it raises exactly if there is a timeout and all polls up to the limit fail, after sleeping 2^(k+1)-1 ticks for the least k >= 1 that exceeds the timeout, which is at most 3 ticks or twice the timeout and one; it is still polling, at any horizon, exactly if all polls so far failed and the limit is not reached; otherwise it returned at the first successful poll |
| `Waiting.LimitBound` | python/hs2client/ext.pyx:316-324 | the bound on the total sleep |
| `Table.NumSpacesIsPrintedLength` | src/hs2client/util.cc:58-68 | the computed width of an integer is the length of its printed text |
| `Decimal.IntTextReads` | src/hs2client/util.cc:201-213 | the text of an integer reads as the integer |
| `Table.GetIntMaxSize` | src/hs2client/util.cc:70-82 | name and cells of an integer column fit, and the width is needed by one of them |
| `Table.GetBoolMaxSize` | src/hs2client/util.cc:111-122 | the same for a boolean column, with at least four characters |
| `Table.GetTextMaxSize` | src/hs2client/util.cc:147-158 | the same for a text column |
| `Table.AddTableBreak` | src/hs2client/util.cc:47-56 | the break row, written in order |
| `Table.PrintBatch` | src/hs2client/util.cc:107-236 | the lines of a table: break, heading, break, one row for each row of data, break, with the widths computed from names and cells |
| `Table.FrameWidths` | src/hs2client/util.cc:173-184 | breaks and heading have width 1 plus the sum of each column's width plus three |
| `Table.BreaksShow` | src/hs2client/util.cc:47-56 | breaks have a corner where each column begins, and dashes between |
| `Table.HeadingShows` | src/hs2client/util.cc:174-183 | the heading shows the name of each column, behind a bar and a blank, where the column begins |
| `Table.TableWidths` | src/hs2client/util.cc:186-236 | a data row has the same width if and only if none of its BINARY cells is longer than its column's name |
| `Table.DataShows` | src/hs2client/util.cc:186-235 | a data row that lines up shows `NULL` or the value of each column, where the column begins |
| `Table.BinarySticksOut` | src/hs2client/util.cc:163-166 | a table whose data row is not as wide as its heading |
| `Table.PrintResults` | src/hs2client/util.cc:86-238 | the output consists of one table for every batch up to the first without more rows, or up to a failed fetch, failed metadata or a result without columns, which ends it with its message |

## Left out

- CollapseStrings: models the loop at lines 1337-1382 on lines without a newline; the include test and the removal of escapes in front of it are not part of this model.
- GetTextInside: the search for the start pattern is a parameter, the end of its match.
- Preprocessor and Nesting: the regular expressions that cut a line into directive, declarations, access keyword and tokens are not modelled; a line is given by what they find, and style errors are not reported.
- Nesting: `InTemplateArgumentList`, a scanner over lines that calls the bracket scanner, is not modelled; what it finds enters as a flag of a class declaration. The other queries on the stack (`InnermostClass` and the like) are not modelled either.
- ReverseUndoesStrictClose: forward and then backward only.
- Angles.CloseFindsMatch: says nothing where the strict matcher fails; what the scanner makes of unbalanced angle brackets, of `operator<<` and of three or more `<` in a row is a heuristic, bounded only by `Templates.CloseTemplate`.
- ReplaceNumbered: where some parameters start with a digit and some hold colons, or digits extend a number, the conditions on the final text are sufficient and not necessary, because accidents can cancel out; what is exact for all of them is the condition on a single round.
- PositionalMarkers: says nothing where there are fewer markers than parameters and parameters bring in others; for question marks `Markers.QuestionMarksExact` does.
- QuestionStyle: the converse is for parameters that hold a character no marker has, or neither a colon nor a percent sign; another one, such as the bare text `:1` of some other value, may be its own marker.
- Binding: `_bind_parameters_dict` rests on the regular expression engine and on `%` formatting; the text of `str(value)` is a parameter.
- Columns: bitmaps are taken to cover the column (the short bitmaps noted at src/hs2client/columnar-row-set.h:69-71 are excluded); allocation failures, the rounding of 64-bit integers to doubles, 32-bit row counters and the reference counts of `True` and `False` are not modelled.
- Columns: ConvertFloat repeats the second pass of ConvertInteger, and the switch over column types is a table.
- ConvertString: UTF-8 decoding and allocation failures are not modelled; an object number is never reused.
- FetchAll: a server that never stops is a finite list of replies, at whose end the loop is still waiting; one column stands for all.
- Lifecycle: sockets, the Thrift transport, connecting and the requests' configuration; a reply is any status with any payload, or an exception. Requests for logs, profiles, metadata and cancellation, which do not touch the handle, are not modelled.
- DropOrder: every RPC succeeds, and only operations are closed explicitly; reference cycles do not occur.
- Wait: sleeps are exact multiples of 50 milliseconds; a call that does not end is looked at up to any number of polls.
- Table: columns of an unrecognised type, after which columns and descriptions no longer correspond, the smallest 64-bit integer, whose negation overflows, and columns of different lengths in one batch.
- PrintResults: a server that never stops is a finite list of turns, at whose end the loop is still waiting.
- The linter's style checks, file reading and configuration, the Thrift interface files, build scripts and continuous integration.
