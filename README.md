# IntelliJ Kotlin-plugin helpers, modelled in Dafny

This project models eight small pieces of the IntelliJ platform and its Kotlin plugin, and proves properties of each:

- the `native2ascii` charset decoder that `.properties` files are read with. It decodes bytes with a base charset and turns `\uXXXX` escapes into single UTF-16 code units, through a pending output buffer;
- the caret-marker extraction and `// ERROR: ` headers of the Kotlin test utilities;
- the target checks and the side-by-side table of the smart-step-into debugger test;
- the "add function to supertype" quick fix: the subtypes-first sort, the modality and body rules, the candidate list, and how the fix picks between adding at once and showing a popup;
- the class-file stub builder's choice of stub and its annotation loader;
- the library modification tracker and its file-system and dumb-mode listeners;
- resolution of descriptor-based Kotlin references to PSI elements;
- `equals`/`hashCode` of the Gradle script root information.

Each source file is one module:

| module | file |
|---|---|
| `Native2Ascii` | `native2ascii.dfy` |
| `TestUtils` | `test_utils.dfy` |
| `SmartStepInto` | `smart_step_into.dfy` |
| `SupertypeFix` | `supertype_fix.dfy` |
| `ClsStubBuilder` | `cls_stub_builder.dfy` |
| `LibraryTracker` | `library_tracker.dfy` |
| `KtReference` | `kt_reference.dfy` |
| `GradleScriptInfo` | `gradle_script_info.dfy` |

Three shared modules support them:

- `Text`: the Kotlin string operations the sources call (`indexOf`, `contains`, `replace`, `repeat`, `joinToString`), and `Units`, a string's UTF-16 code units. A Dafny `string` is a sequence of Unicode scalar values; `String.length`, string offsets, `compareTo` and `hashCode` count code units, and the model computes those through `Units`, where a supplementary character is a surrogate pair;
- `Seqs`: sequence slicing facts;
- `Wrappers`: `Option`.

Code that changes state is modelled with classes, methods and loops:

- the decoder with its pending buffer and its byte and char buffers;
- the document, marker extraction and table rendering;
- the in-place sort;
- the annotation visitor;
- the tracker's counter.

Pure code is modelled with datatypes and functions.

Services of the IDE and the compiler are parameters of the model: the base charset, the type checker, renderers, the binding-context analysis, the file index, and hash codes of foreign objects.

## Model

| member | source | states |
|---|---|---|
| Native2Ascii.DigitOfByte | platform/platform-api/src/com/intellij/lang/properties/charset/Native2AsciiCharsetDecoder.java:100-107 | `Character.digit((char)b, 16)` is -1 or a digit below 16, and is a digit exactly for the ASCII bytes `0-9`, `A-F`, `a-f` |
| Native2Ascii.HexLetterEitherCase | platform/platform-api/src/com/intellij/lang/properties/charset/Native2AsciiCharsetDecoder.java:100-107 | an upper-case and a lower-case hex letter give the same digit |
| Native2Ascii.HexNumberFour | platform/platform-api/src/com/intellij/lang/properties/charset/Native2AsciiCharsetDecoder.java:100-112 | four hex digits spell d1·4096 + d2·256 + d3·16 + d4, which is below 0x10000 |
| Native2Ascii.Pack | platform/platform-api/src/com/intellij/lang/properties/charset/Native2AsciiCharsetDecoder.java:108-112 | the masked shifts or-ed together equal the weighted sum of the four digits and fit in 16 bits |
| Native2Ascii.Assemble | platform/platform-api/src/com/intellij/lang/properties/charset/Native2AsciiCharsetDecoder.java:108-112 | the shift-and-mask assembly of four digits is d1·4096 + d2·256 + d3·16 + d4 |
| Native2Ascii.Unicode | platform/platform-api/src/com/intellij/lang/properties/charset/Native2AsciiCharsetDecoder.java:99-115 | the result is not `INVALID_CHAR` exactly when all four bytes are hex digits and the code unit is neither whitespace nor 0xFFFF, and is then that code unit |
| Native2Ascii.DecodedUnit | platform/platform-api/src/com/intellij/lang/properties/charset/Native2AsciiCharsetDecoder.java:99-115 | a code unit is decoded only from four hex digits, as d1·4096 + d2·256 + d3·16 + d4, and is never `INVALID_CHAR` or whitespace |
| Native2Ascii.EscapeLength | platform/platform-api/src/com/intellij/lang/properties/charset/Native2AsciiCharsetDecoder.java:57-80 | an escape is 6 bytes after `\u` and 2 otherwise; it is cut off exactly when the limit comes right after the backslash or within the four bytes after `\u` |
| Native2Ascii.ScanNoLoss | platform/platform-api/src/com/intellij/lang/properties/charset/Native2AsciiCharsetDecoder.java:54-88 | the runs and escapes the loop splits the input into are exactly the consumed bytes, in order, and it stops between the run start and the limit |
| Native2Ascii.Scan | platform/platform-api/src/com/intellij/lang/properties/charset/Native2AsciiCharsetDecoder.java:54-88 | the loop consumes bytes from its position on and never past the limit |
| Native2Ascii.ScanWellFormed | platform/platform-api/src/com/intellij/lang/properties/charset/Native2AsciiCharsetDecoder.java:54-97 | every run handed to the base charset is non-empty and holds no backslash; every escape is a backslash plus one byte, or `\u` plus four |
| Native2Ascii.ScanStopsAtCutEscape | platform/platform-api/src/com/intellij/lang/properties/charset/Native2AsciiCharsetDecoder.java:54-88 | the input is consumed up to the limit, unless an escape is cut off; the position is then restored to its backslash |
| Native2Ascii.BackslashOtherKept | platform/platform-api/src/com/intellij/lang/properties/charset/Native2AsciiCharsetDecoder.java:77-80 | a backslash followed by any byte other than `u` is emitted as `\` and that byte cast to a char |
| Native2Ascii.UndecodableKept | platform/platform-api/src/com/intellij/lang/properties/charset/Native2AsciiCharsetDecoder.java:65-72 | a `\u` escape that `unicode` refuses is emitted literally as its six bytes cast to chars |
| Native2Ascii.UnicodeEscapeText | platform/platform-api/src/com/intellij/lang/properties/charset/Native2AsciiCharsetDecoder.java:65-75 | a `\u` escape's text is the code unit `unicode` gives, or the six bytes when it gives `INVALID_CHAR` |
| Native2Ascii.EscapeRoundTrip | platform/platform-api/src/com/intellij/lang/properties/charset/Native2AsciiCharsetDecoder.java:99-115 | the `\uXXXX` escape of any code unit decodes back to it, except whitespace and 0xFFFF, whose escapes stay literal |
| Native2Ascii.ByteBuf.Get | platform/platform-api/src/com/intellij/lang/properties/charset/Native2AsciiCharsetDecoder.java:56-59 | `get()` gives the byte at the position and advances it, or underflows at the limit and leaves the position alone |
| Native2Ascii.ByteBuf.GetFour | platform/platform-api/src/com/intellij/lang/properties/charset/Native2AsciiCharsetDecoder.java:61-64 | four `get()` calls give the next four bytes, or underflow with the position at the limit |
| Native2Ascii.ByteBuf.Reset | platform/platform-api/src/com/intellij/lang/properties/charset/Native2AsciiCharsetDecoder.java:87 | `reset()` puts the position back at the mark |
| Native2Ascii.CharBuf.Remaining | platform/platform-api/src/com/intellij/lang/properties/charset/Native2AsciiCharsetDecoder.java:37 | `remaining()` is the room between position and limit |
| Native2Ascii.CharBuf.Append | platform/platform-api/src/com/intellij/lang/properties/charset/Native2AsciiCharsetDecoder.java:39 | the chars are written from the position on and the position advances past them |
| Native2Ascii.Flush | platform/platform-api/src/com/intellij/lang/properties/charset/Native2AsciiCharsetDecoder.java:35-44 | exactly min(remaining, pending) chars are copied, from the front of the pending chars and in order; chars are left pending only when the buffer is full |
| Native2Ascii.FlushTwice | platform/platform-api/src/com/intellij/lang/properties/charset/Native2AsciiCharsetDecoder.java:49-89 | flushing everything pending and then the newly decoded chars is one flush of both |
| Native2Ascii.Decoder.constructor | platform/platform-api/src/com/intellij/lang/properties/charset/Native2AsciiCharsetDecoder.java:15-21 | a new decoder has nothing pending |
| Native2Ascii.Decoder.ImplReset | platform/platform-api/src/com/intellij/lang/properties/charset/Native2AsciiCharsetDecoder.java:24-27 | `implReset` leaves the pending buffer empty |
| Native2Ascii.Decoder.DoFlush | platform/platform-api/src/com/intellij/lang/properties/charset/Native2AsciiCharsetDecoder.java:35-44 | the new output and pending chars are those of `Flush`; OVERFLOW exactly when chars remain pending |
| Native2Ascii.Decoder.ImplFlush | platform/platform-api/src/com/intellij/lang/properties/charset/Native2AsciiCharsetDecoder.java:30-32 | `implFlush` is `doFlush` |
| Native2Ascii.Decoder.DecodeArray | platform/platform-api/src/com/intellij/lang/properties/charset/Native2AsciiCharsetDecoder.java:92-97 | an empty or negative range changes nothing; otherwise the run is decoded once by the base charset and appended |
| Native2Ascii.Decoder.DecodeLoop | platform/platform-api/src/com/intellij/lang/properties/charset/Native2AsciiCharsetDecoder.java:47-90 | when the pending chars do not fit it returns OVERFLOW and reads nothing; otherwise it decodes the scan of the input, flushes, and reports OVERFLOW exactly when chars remain pending |
| Native2Ascii.Decoder.DecodeInput | platform/platform-api/src/com/intellij/lang/properties/charset/Native2AsciiCharsetDecoder.java:52-88 | the pending chars grow by the decoded scan, the base charset gets the scan's runs in order, and the position ends where the scan stops |
| Native2Ascii.Decoder.DecodeBackslash | platform/platform-api/src/com/intellij/lang/properties/charset/Native2AsciiCharsetDecoder.java:57-88 | the run before the backslash is decoded, then the escape's text is appended; a cut-off escape resets the position to the backslash |
| Native2Ascii.ReadEscape | platform/platform-api/src/com/intellij/lang/properties/charset/Native2AsciiCharsetDecoder.java:59-80 | an escape that fits gives its text and moves past it; a cut-off one underflows |
| TestUtils.Document.SetText | plugins/kotlin/test-framework/test/org/jetbrains/kotlin/idea/test/testUtils.kt:79 | the document's text becomes the given text |
| TestUtils.Delete | plugins/kotlin/test-framework/test/org/jetbrains/kotlin/idea/test/testUtils.kt:78 | `delete(k, k + n)` keeps the text before `k` and after `k + n` |
| TestUtils.Extract | plugins/kotlin/test-framework/test/org/jetbrains/kotlin/idea/test/testUtils.kt:74-85 | the final text has no marker left and is shorter by the marker's length for every recorded offset; one `String` offset, in UTF-16 code units, is reported per removed marker |
| TestUtils.BmpReportedOffsets | plugins/kotlin/test-framework/test/org/jetbrains/kotlin/idea/test/testUtils.kt:76-81 | for text without supplementary characters the reported offsets are the character indices |
| TestUtils.SupplementaryOffset | plugins/kotlin/test-framework/test/org/jetbrains/kotlin/idea/test/testUtils.kt:76-81 | a marker after one supplementary character is reported at offset 2, the two code units of its surrogate pair |
| TestUtils.ExtractRestore | plugins/kotlin/test-framework/test/org/jetbrains/kotlin/idea/test/testUtils.kt:70-92 | reinserting the marker at the recorded offsets, last first, gives the original text back |
| TestUtils.ReinsertDeleted | plugins/kotlin/test-framework/test/org/jetbrains/kotlin/idea/test/testUtils.kt:78 | deleting an occurrence and reinserting it at its offset restores the text |
| TestUtils.EmptyMarkerNoProgress | plugins/kotlin/test-framework/test/org/jetbrains/kotlin/idea/test/testUtils.kt:75-85 | an empty marker is found at offset 0 and deleting it changes nothing, so the loop would not end |
| TestUtils.ExtractMultipleMarkerOffsets | plugins/kotlin/test-framework/test/org/jetbrains/kotlin/idea/test/testUtils.kt:70-92 | the document ends with the text of `Extract`, and the offsets returned are its reported offsets, counted in UTF-16 code units |
| TestUtils.ExtractMarkerOffset | plugins/kotlin/test-framework/test/org/jetbrains/kotlin/idea/test/testUtils.kt:66-68 | the single reported offset when exactly one marker was removed, otherwise -1 |
| TestUtils.KeptErrors | plugins/kotlin/test-framework/test/org/jetbrains/kotlin/idea/test/testUtils.kt:45-47 | the kept diagnostics are exactly the errors whose factory is not ignored; a single diagnostic is kept alone or dropped |
| TestUtils.KeptErrorsCount | plugins/kotlin/test-framework/test/org/jetbrains/kotlin/idea/test/testUtils.kt:45-47 | each kept diagnostic occurs as often as in the input, and the others not at all |
| TestUtils.KeptErrorsAppend | plugins/kotlin/test-framework/test/org/jetbrains/kotlin/idea/test/testUtils.kt:45-47 | filtering distributes over concatenation, so the kept errors keep their order |
| TestUtils.ErrorLine | plugins/kotlin/test-framework/test/org/jetbrains/kotlin/idea/test/testUtils.kt:49 | a header line is `// ERROR: ` followed by the message with each line break turned into a space, and holds no line break |
| TestUtils.ErrorLines | plugins/kotlin/test-framework/test/org/jetbrains/kotlin/idea/test/testUtils.kt:49 | one header line per kept error, in order |
| TestUtils.JoinWithPostfix | plugins/kotlin/test-framework/test/org/jetbrains/kotlin/idea/test/testUtils.kt:49 | joining with line breaks plus a final one terminates every line |
| TestUtils.TerminatedLineCount | plugins/kotlin/test-framework/test/org/jetbrains/kotlin/idea/test/testUtils.kt:49 | break-free lines, each terminated, hold exactly one line break per line |
| TestUtils.DumpTextWithErrors | plugins/kotlin/test-framework/test/org/jetbrains/kotlin/idea/test/testUtils.kt:25-51 | the text is unchanged when errors are disabled or none is kept; otherwise the header of the kept errors precedes it |
| TestUtils.HeaderLineCount | plugins/kotlin/test-framework/test/org/jetbrains/kotlin/idea/test/testUtils.kt:48-50 | the header has one line per kept error and the text follows it unchanged |
| TestUtils.ErrorHighlights | plugins/kotlin/test-framework/test/org/jetbrains/kotlin/idea/test/testUtils.kt:55 | the kept highlights are exactly those of error severity; a single highlight is kept alone or dropped |
| TestUtils.ErrorHighlightsCount | plugins/kotlin/test-framework/test/org/jetbrains/kotlin/idea/test/testUtils.kt:55 | each error highlight occurs as often as in the input, and the others not at all |
| TestUtils.ErrorHighlightsAppend | plugins/kotlin/test-framework/test/org/jetbrains/kotlin/idea/test/testUtils.kt:55 | filtering distributes over concatenation, so the kept highlights keep their order |
| TestUtils.DumpErrorLines | plugins/kotlin/test-framework/test/org/jetbrains/kotlin/idea/test/testUtils.kt:53-58 | no lines under the disabling directive; otherwise one `// ERROR: ` line per error highlight, in order |
| SmartStepInto.LexLeTotal | plugins/kotlin/jvm-debugger/test/test/org/jetbrains/kotlin/idea/debugger/test/AbstractSmartStepIntoTest.kt:58-59 | `compareTo` on strings, which compares UTF-16 code units, is total, so `sorted()` is defined on any list |
| SmartStepInto.UnitsLeTotal | plugins/kotlin/jvm-debugger/test/test/org/jetbrains/kotlin/idea/debugger/test/AbstractSmartStepIntoTest.kt:58-59 | the order of code-unit sequences is total |
| SmartStepInto.SupplementaryBeforeReplacementChar | plugins/kotlin/jvm-debugger/test/test/org/jetbrains/kotlin/idea/debugger/test/AbstractSmartStepIntoTest.kt:58-59 | a supplementary character sorts before U+FFFD, because its high surrogate is a smaller code unit |
| SmartStepInto.InsertSorted | plugins/kotlin/jvm-debugger/test/test/org/jetbrains/kotlin/idea/debugger/test/AbstractSmartStepIntoTest.kt:58-59 | inserting into a sorted list keeps it sorted and adds exactly that string |
| SmartStepInto.SortStrings | plugins/kotlin/jvm-debugger/test/test/org/jetbrains/kotlin/idea/debugger/test/AbstractSmartStepIntoTest.kt:58-59 | `sorted()` is sorted in code-unit order and a permutation of its input |
| SmartStepInto.MaxLength | plugins/kotlin/jvm-debugger/test/test/org/jetbrains/kotlin/idea/debugger/test/AbstractSmartStepIntoTest.kt:57 | the greatest `String.length` in UTF-16 code units, attained by some string; 0 for an empty list |
| SmartStepInto.LayoutChoice | plugins/kotlin/jvm-debugger/test/test/org/jetbrains/kotlin/idea/debugger/test/AbstractSmartStepIntoTest.kt:57-59 | the first column holds the sorted actual list only when it is strictly longer, expected on a tie; the width is the longest expected target plus five |
| SmartStepInto.Line | plugins/kotlin/jvm-debugger/test/test/org/jetbrains/kotlin/idea/debugger/test/AbstractSmartStepIntoTest.kt:61-64 | a row is the element, `width - length` spaces, the other entry and a line break |
| SmartStepInto.LineLayout | plugins/kotlin/jvm-debugger/test/test/org/jetbrains/kotlin/idea/debugger/test/AbstractSmartStepIntoTest.kt:61-64 | a row starts with the element, has spaces up to code unit `width`, and the other entry and the line break after it |
| SmartStepInto.PaddedLength | plugins/kotlin/jvm-debugger/test/test/org/jetbrains/kotlin/idea/debugger/test/AbstractSmartStepIntoTest.kt:62 | the padded element is exactly `width` code units long |
| SmartStepInto.RenderTableWithResults | plugins/kotlin/jvm-debugger/test/test/org/jetbrains/kotlin/idea/debugger/test/AbstractSmartStepIntoTest.kt:54-68 | the method builds exactly the table `Table` specifies |
| SmartStepInto.RenderRows | plugins/kotlin/jvm-debugger/test/test/org/jetbrains/kotlin/idea/debugger/test/AbstractSmartStepIntoTest.kt:60-65 | the loop builds one row per first-column element, or fails at a negative padding |
| SmartStepInto.RowAppended | plugins/kotlin/jvm-debugger/test/test/org/jetbrains/kotlin/idea/debugger/test/AbstractSmartStepIntoTest.kt:61-64 | the four appends of one iteration append one row |
| SmartStepInto.Table | plugins/kotlin/jvm-debugger/test/test/org/jetbrains/kotlin/idea/debugger/test/AbstractSmartStepIntoTest.kt:54-68 | `repeat` gets a negative count exactly when actual is longer and holds a target more than five code units longer than every expected one; when expected is at least as long, the table is always built |
| SmartStepInto.RowsLineCount | plugins/kotlin/jvm-debugger/test/test/org/jetbrains/kotlin/idea/debugger/test/AbstractSmartStepIntoTest.kt:60-65 | with break-free targets the table has one line per first-column element |
| SmartStepInto.LineHasOneBreak | plugins/kotlin/jvm-debugger/test/test/org/jetbrains/kotlin/idea/debugger/test/AbstractSmartStepIntoTest.kt:61-64 | a row of break-free entries holds exactly one line break |
| SmartStepInto.FirstMissing | plugins/kotlin/jvm-debugger/test/test/org/jetbrains/kotlin/idea/debugger/test/AbstractSmartStepIntoTest.kt:39-51 | nothing exactly when every element is in the other list; otherwise an element missing from it |
| SmartStepInto.CheckIsSetEquality | plugins/kotlin/jvm-debugger/test/test/org/jetbrains/kotlin/idea/debugger/test/AbstractSmartStepIntoTest.kt:39-51 | the checks pass exactly when both lists hold the same targets as sets; a failure names an unexpected or a missed target |
| SmartStepInto.CheckTargets | plugins/kotlin/jvm-debugger/test/test/org/jetbrains/kotlin/idea/debugger/test/AbstractSmartStepIntoTest.kt:39-51 | pass exactly when each list holds every element of the other; an unexpected target is found but not expected; a missed target is expected but not found, and is reported only once every found target is expected |
| SmartStepInto.ExpectedTargets | plugins/kotlin/jvm-debugger/test/test/org/jetbrains/kotlin/idea/debugger/test/AbstractSmartStepIntoTest.kt:36-37 | one expected target per directive entry found in the protected text, with `+++` turned back into `,` |
| SmartStepInto.ProtectThenRestore | plugins/kotlin/jvm-debugger/test/test/org/jetbrains/kotlin/idea/debugger/test/AbstractSmartStepIntoTest.kt:36-37 | in a text without `+`, protecting `\,` and restoring `+++` turns each `\,` into `,` |
| SmartStepInto.PlusBeforeEscapedComma | plugins/kotlin/jvm-debugger/test/test/org/jetbrains/kotlin/idea/debugger/test/AbstractSmartStepIntoTest.kt:36-37 | with `+` before `\,` the round trip goes wrong: `+\,` becomes `,+`, not `+,`, and a literal `+++` becomes `,` |
| SupertypeFix.RemoveAt | plugins/kotlin/idea/src/org/jetbrains/kotlin/idea/quickfix/AddFunctionToSupertypeFix.kt:184 | `removeAt(i)` drops the element at `i` and keeps the others in order |
| SupertypeFix.AddAt | plugins/kotlin/idea/src/org/jetbrains/kotlin/idea/quickfix/AddFunctionToSupertypeFix.kt:185 | `add(j, x)` inserts `x` before index `j` |
| SupertypeFix.MoveFacts | plugins/kotlin/idea/src/org/jetbrains/kotlin/idea/quickfix/AddFunctionToSupertypeFix.kt:184-185 | moving `l[i]` to `j <= i` keeps the elements, and shifts those from `j` to `i - 1` one place right |
| SupertypeFix.FirstSupertypeFrom | plugins/kotlin/idea/src/org/jetbrains/kotlin/idea/quickfix/AddFunctionToSupertypeFix.kt:182-188 | the first index from `from` on whose element `l[i]` is a subtype of, or `i` |
| SupertypeFix.FirstSupertype | plugins/kotlin/idea/src/org/jetbrains/kotlin/idea/quickfix/AddFunctionToSupertypeFix.kt:182-188 | the first index before `i` whose element `l[i]` is a subtype of, or `i` when there is none |
| SupertypeFix.Step | plugins/kotlin/idea/src/org/jetbrains/kotlin/idea/quickfix/AddFunctionToSupertypeFix.kt:181-188 | one outer-loop pass keeps the length |
| SupertypeFix.StepMovesToFirstSupertype | plugins/kotlin/idea/src/org/jetbrains/kotlin/idea/quickfix/AddFunctionToSupertypeFix.kt:181-188 | a pass moves `l[i]` to its first supertype position, shifts the elements in between, keeps the rest, and keeps the multiset; with no supertype nothing moves |
| SupertypeFix.Passes | plugins/kotlin/idea/src/org/jetbrains/kotlin/idea/quickfix/AddFunctionToSupertypeFix.kt:180-189 | the passes keep the length |
| SupertypeFix.PassesPermutation | plugins/kotlin/idea/src/org/jetbrains/kotlin/idea/quickfix/AddFunctionToSupertypeFix.kt:178-191 | the sort is a permutation of the supertypes |
| SupertypeFix.PassesKeepTail | plugins/kotlin/idea/src/org/jetbrains/kotlin/idea/quickfix/AddFunctionToSupertypeFix.kt:180-189 | the first `n - 1` passes leave positions `n` and beyond untouched |
| SupertypeFix.SortSubtypesFirst | plugins/kotlin/idea/src/org/jetbrains/kotlin/idea/quickfix/AddFunctionToSupertypeFix.kt:178-191 | the in-place loop computes all passes, the result is a permutation of the input, and with a transitive subtype relation no type stands after a type it is a proper subtype of (subtypes first) |
| SupertypeFix.StepSubtypesFirst | plugins/kotlin/idea/src/org/jetbrains/kotlin/idea/quickfix/AddFunctionToSupertypeFix.kt:180-189 | one pass over index i, with a transitive subtype relation, extends the subtypes-first prefix from i to i + 1 elements |
| SupertypeFix.PassesSubtypesFirst | plugins/kotlin/idea/src/org/jetbrains/kotlin/idea/quickfix/AddFunctionToSupertypeFix.kt:180-189 | after the passes for indices 1 to n - 1 the first n types are subtypes first, given a transitive subtype relation |
| SupertypeFix.MoveToFirstSupertype | plugins/kotlin/idea/src/org/jetbrains/kotlin/idea/quickfix/AddFunctionToSupertypeFix.kt:182-188 | the inner loop with its `break` performs exactly one pass |
| SupertypeFix.GeneratedModality | plugins/kotlin/idea/src/org/jetbrains/kotlin/idea/quickfix/AddFunctionToSupertypeFix.kt:204-208 | the generated function is never sealed; it is abstract exactly for an interface, a sealed or an abstract class, and otherwise takes the class's modality |
| SupertypeFix.SignatureFor | plugins/kotlin/idea/src/org/jetbrains/kotlin/idea/quickfix/AddFunctionToSupertypeFix.kt:210-216 | the copy sits in the target class with the generated modality, and the same name, visibility and return type |
| SupertypeFix.Declared | plugins/kotlin/idea/src/org/jetbrains/kotlin/idea/quickfix/AddFunctionToSupertypeFix.kt:195 | the classes are exactly those some supertype stands for; a single supertype gives its class or nothing |
| SupertypeFix.DeclaredAppend | plugins/kotlin/idea/src/org/jetbrains/kotlin/idea/quickfix/AddFunctionToSupertypeFix.kt:195 | `mapNotNull` distributes over concatenation, so the classes keep the order of their supertypes |
| SupertypeFix.DeclaredPermutation | plugins/kotlin/idea/src/org/jetbrains/kotlin/idea/quickfix/AddFunctionToSupertypeFix.kt:193-196 | supertypes that are a rearrangement of each other declare the same classes, as often |
| SupertypeFix.NotAny | plugins/kotlin/idea/src/org/jetbrains/kotlin/idea/quickfix/AddFunctionToSupertypeFix.kt:173 | exactly the classes other than `Any` are kept; a single class is kept alone or dropped |
| SupertypeFix.NotAnyCount | plugins/kotlin/idea/src/org/jetbrains/kotlin/idea/quickfix/AddFunctionToSupertypeFix.kt:173 | each class other than `Any` is kept as often as it occurs |
| SupertypeFix.NotAnyAppend | plugins/kotlin/idea/src/org/jetbrains/kotlin/idea/quickfix/AddFunctionToSupertypeFix.kt:173 | `filterNot` distributes over concatenation, so the classes keep their order |
| SupertypeFix.Signatures | plugins/kotlin/idea/src/org/jetbrains/kotlin/idea/quickfix/AddFunctionToSupertypeFix.kt:174 | one signature per class, in order |
| SupertypeFix.GetSuperClasses | plugins/kotlin/idea/src/org/jetbrains/kotlin/idea/quickfix/AddFunctionToSupertypeFix.kt:193-196 | the classes of the sorted supertypes, which are exactly the classes some supertype stands for |
| SupertypeFix.GenerateFunctionsToAdd | plugins/kotlin/idea/src/org/jetbrains/kotlin/idea/quickfix/AddFunctionToSupertypeFix.kt:165-176 | the method computes `FunctionsToAdd`: nothing for an unresolved function or one outside a class |
| SupertypeFix.FunctionsToAdd | plugins/kotlin/idea/src/org/jetbrains/kotlin/idea/quickfix/AddFunctionToSupertypeFix.kt:165-176 | nothing for an unresolved function or one outside a class; every candidate has the function's name and sits in a class |
| SupertypeFix.FunctionsToAddTargets | plugins/kotlin/idea/src/org/jetbrains/kotlin/idea/quickfix/AddFunctionToSupertypeFix.kt:165-176 | every candidate is the function copied into a supertype class other than `Any`; every such class gets its copy; there is one candidate per class the supertypes declare, `Any` left out |
| SupertypeFix.FunctionsToAddCount | plugins/kotlin/idea/src/org/jetbrains/kotlin/idea/quickfix/AddFunctionToSupertypeFix.kt:165-176 | the candidates are as many as the classes, other than `Any`, that the supertypes declare |
| SupertypeFix.BodyText | plugins/kotlin/idea/src/org/jetbrains/kotlin/idea/quickfix/AddFunctionToSupertypeFix.kt:132-146 | no body in an interface or for an abstract function; `{}` for `Unit`; otherwise the template, given the function's name, its return type text and the class's importable name, in braces |
| SupertypeFix.UnknownReturnUsesUnitTemplate | plugins/kotlin/idea/src/org/jetbrains/kotlin/idea/quickfix/AddFunctionToSupertypeFix.kt:134-139 | an unknown return type gets the template body for `Unit`, never `{}` |
| SupertypeFix.GeneratedBodyEmpty | plugins/kotlin/idea/src/org/jetbrains/kotlin/idea/quickfix/AddFunctionToSupertypeFix.kt:132-146 | a candidate has no body exactly when its class is an interface, sealed or abstract |
| SupertypeFix.CreateFunctionData | plugins/kotlin/idea/src/org/jetbrains/kotlin/idea/quickfix/AddFunctionToSupertypeFix.kt:129-154 | nothing exactly when the class has no source declaration; otherwise the rendered signature with its body, the short preview and that class |
| SupertypeFix.AllFunctionData | plugins/kotlin/idea/src/org/jetbrains/kotlin/idea/quickfix/AddFunctionToSupertypeFix.kt:123 | at most one datum per candidate, a single candidate gives its own datum or none, and the result is empty exactly when no candidate's class has a source declaration |
| SupertypeFix.AllFunctionDataMembers | plugins/kotlin/idea/src/org/jetbrains/kotlin/idea/quickfix/AddFunctionToSupertypeFix.kt:123 | a datum is in the result exactly when `createFunctionData` gives it for some candidate |
| SupertypeFix.AllFunctionDataAppend | plugins/kotlin/idea/src/org/jetbrains/kotlin/idea/quickfix/AddFunctionToSupertypeFix.kt:123 | `mapNotNull` over two lists of candidates is the concatenation of the two results |
| SupertypeFix.CreateAction | plugins/kotlin/idea/src/org/jetbrains/kotlin/idea/quickfix/AddFunctionToSupertypeFix.kt:116-127 | no fix for a non-function, for no candidates, or when none has a source class; otherwise a fix with all the candidate data |
| SupertypeFix.ActionName | plugins/kotlin/idea/src/org/jetbrains/kotlin/idea/quickfix/AddFunctionToSupertypeFix.kt:109-113 | the name shows the candidate's preview and its class's name |
| SupertypeFix.GetText | plugins/kotlin/idea/src/org/jetbrains/kotlin/idea/quickfix/AddFunctionToSupertypeFix.kt:50-51 | the only candidate's name when there is one, the generic text otherwise |
| SupertypeFix.Invoke | plugins/kotlin/idea/src/org/jetbrains/kotlin/idea/quickfix/AddFunctionToSupertypeFix.kt:57-65 | the first candidate is added at once exactly when it is the only one or there is no showing editor; otherwise a popup lists all of them |
| SupertypeFix.OnChosen | plugins/kotlin/idea/src/org/jetbrains/kotlin/idea/quickfix/AddFunctionToSupertypeFix.kt:96-101 | the chosen candidate is added exactly on a final choice |
| SupertypeFix.InvokeAddsACandidate | plugins/kotlin/idea/src/org/jetbrains/kotlin/idea/quickfix/AddFunctionToSupertypeFix.kt:57-101 | whichever way the fix is invoked, what gets added is one of its candidates |
| ClsStubBuilder.IsVersioned | plugins/kotlin/analysis/src/org/jetbrains/kotlin/idea/decompiler/classFile/KotlinClsStubBuilder.kt:117-119 | a file is versioned exactly when its path holds `!/META-INF/versions/` |
| ClsStubBuilder.VersionedEntry | plugins/kotlin/analysis/src/org/jetbrains/kotlin/idea/decompiler/classFile/KotlinClsStubBuilder.kt:115-119 | every entry under a multi-release jar's `versions` directory is versioned |
| ClsStubBuilder.PlainPathNotVersioned | plugins/kotlin/analysis/src/org/jetbrains/kotlin/idea/decompiler/classFile/KotlinClsStubBuilder.kt:115-119 | a path without `META-INF` is not versioned |
| ClsStubBuilder.DoBuildFileStub | plugins/kotlin/analysis/src/org/jetbrains/kotlin/idea/decompiler/classFile/KotlinClsStubBuilder.kt:52-102 | a missing binary class throws; an incompatible metadata version gives the incompatible-ABI stub |
| ClsStubBuilder.BuildFileStub | plugins/kotlin/analysis/src/org/jetbrains/kotlin/idea/decompiler/classFile/KotlinClsStubBuilder.kt:36-50 | internal compiled and versioned files get no stub; all others go to `doBuildFileStub` |
| ClsStubBuilder.FileChecksFirst | plugins/kotlin/analysis/src/org/jetbrains/kotlin/idea/decompiler/classFile/KotlinClsStubBuilder.kt:39-47 | the file checks come first: such files get no stub whatever their binary class |
| ClsStubBuilder.IncompatibleWins | plugins/kotlin/analysis/src/org/jetbrains/kotlin/idea/decompiler/classFile/KotlinClsStubBuilder.kt:59-61 | an incompatible version gives the incompatible-ABI stub whatever the kind, data or strings |
| ClsStubBuilder.CompatibleOutcomes | plugins/kotlin/analysis/src/org/jetbrains/kotlin/idea/decompiler/classFile/KotlinClsStubBuilder.kt:63-101 | a multifile class always gets its stub; otherwise missing data or strings give none, a local class or one whose proto is LOCAL gets none, any other class gets its top-level stub, a file facade gets its stub named by `FacadeName`, and exactly the kinds other than class, facade and multifile class throw |
| ClsStubBuilder.FacadeName | plugins/kotlin/analysis/src/org/jetbrains/kotlin/idea/decompiler/classFile/KotlinClsStubBuilder.kt:96-97 | the header's package name, or the class id's own package, joined by a dot (none for the root package) with the class's relative name, which the result ends with |
| ClsStubBuilder.ClassStubRequirements | plugins/kotlin/analysis/src/org/jetbrains/kotlin/idea/decompiler/classFile/KotlinClsStubBuilder.kt:80-92 | a class stub is built only for a non-versioned, non-internal, compatible, non-local class with data and strings and no LOCAL visibility |
| ClsStubBuilder.RepeatableVisitor.VisitClassLiteral | plugins/kotlin/analysis/src/org/jetbrains/kotlin/idea/decompiler/classFile/KotlinClsStubBuilder.kt:152-155 | a named argument is recorded under its name; an unnamed one changes nothing |
| ClsStubBuilder.RepeatableVisitor.VisitEnd | plugins/kotlin/analysis/src/org/jetbrains/kotlin/idea/decompiler/classFile/KotlinClsStubBuilder.kt:157-161 | the annotation is appended exactly when it is not repeatable with an implicit container |
| ClsStubBuilder.AnnotationLoader.GetCachedFileContent | plugins/kotlin/analysis/src/org/jetbrains/kotlin/idea/decompiler/classFile/KotlinClsStubBuilder.kt:129-134 | the content is given exactly for a class read from the loader's own file |
| ClsStubBuilder.AnnotationLoader.LoadAnnotation | plugins/kotlin/analysis/src/org/jetbrains/kotlin/idea/decompiler/classFile/KotlinClsStubBuilder.kt:142-168 | any annotation but `Repeatable` is appended with no visitor; `Repeatable` leaves the result alone and gets a fresh visitor with no arguments |
| LibraryTracker.RelevantEvents | plugins/kotlin/analysis/src/org/jetbrains/kotlin/idea/caches/project/LibraryModificationTracker.kt:37 | exactly the create, move and copy events are kept |
| LibraryTracker.IsRelevantEvent | plugins/kotlin/analysis/src/org/jetbrains/kotlin/idea/caches/project/LibraryModificationTracker.kt:101-102 | create, move and copy events are relevant; delete, content-change and property-change events are not |
| LibraryTracker.IsLibraryArchiveRoot | plugins/kotlin/analysis/src/org/jetbrains/kotlin/idea/caches/project/LibraryModificationTracker.kt:93-98 | true exactly for an archive whose jar root exists and is in library classes |
| LibraryTracker.AfterAcceptsMore | plugins/kotlin/analysis/src/org/jetbrains/kotlin/idea/caches/project/LibraryModificationTracker.kt:41-52 | any event batch the `before` check counts, the `after` check counts too |
| LibraryTracker.RelevantHits | plugins/kotlin/analysis/src/org/jetbrains/kotlin/idea/caches/project/LibraryModificationTracker.kt:36-48 | the filtered batch hits exactly when some create, move or copy event of the batch does |
| LibraryTracker.LibraryModificationTracker.ProcessBulk | plugins/kotlin/analysis/src/org/jetbrains/kotlin/idea/caches/project/LibraryModificationTracker.kt:80-90 | the count goes up by one exactly when some valid event's file passes the check, and never by more |
| LibraryTracker.LibraryModificationTracker.IncModificationCount | plugins/kotlin/analysis/src/org/jetbrains/kotlin/idea/caches/project/LibraryModificationTracker.kt:26 | the inherited `incModificationCount` raises the count by exactly one |
| LibraryTracker.LibraryModificationTracker.Before | plugins/kotlin/analysis/src/org/jetbrains/kotlin/idea/caches/project/LibraryModificationTracker.kt:50-54 | `before` counts once when some valid event's file is in library classes, as the index given at that call answers |
| LibraryTracker.LibraryModificationTracker.After | plugins/kotlin/analysis/src/org/jetbrains/kotlin/idea/caches/project/LibraryModificationTracker.kt:36-48 | `after` schedules the relevant events when there are any, and counts nothing itself |
| LibraryTracker.LibraryModificationTracker.RunScheduled | plugins/kotlin/analysis/src/org/jetbrains/kotlin/idea/caches/project/LibraryModificationTracker.kt:39-45 | the scheduled action counts once when some event's file is in library classes or is a library archive root, as the index given when the action runs answers |
| LibraryTracker.LibraryModificationTracker.EnteredDumbMode | plugins/kotlin/analysis/src/org/jetbrains/kotlin/idea/caches/project/LibraryModificationTracker.kt:58-60 | entering dumb mode counts once |
| LibraryTracker.LibraryModificationTracker.ExitDumbMode | plugins/kotlin/analysis/src/org/jetbrains/kotlin/idea/caches/project/LibraryModificationTracker.kt:62-64 | leaving dumb mode counts once |
| LibraryTracker.LibraryModificationTracker.BeforeFileTypesChanged | plugins/kotlin/analysis/src/org/jetbrains/kotlin/idea/caches/project/LibraryModificationTracker.kt:68-70 | a coming file-type change counts once |
| LibraryTracker.LibraryModificationTracker.FileTypesChanged | plugins/kotlin/analysis/src/org/jetbrains/kotlin/idea/caches/project/LibraryModificationTracker.kt:72-74 | a file-type change counts once |
| KtReference.Dedup | plugins/kotlin/analysis/src/org/jetbrains/kotlin/idea/references/KtReference.kt:54 | `toSet()` has no duplicates and exactly the elements of its input |
| KtReference.DedupGrows | plugins/kotlin/analysis/src/org/jetbrains/kotlin/idea/references/KtReference.kt:54 | de-duplicating more of the input only appends: every element keeps the place of its first occurrence |
| KtReference.ResolveDescriptor | plugins/kotlin/analysis/src/org/jetbrains/kotlin/idea/references/KtReference.kt:65-74 | a package descriptor resolves to at most one element, the package found, if any; any other descriptor to all its declarations |
| KtReference.FlatMap | plugins/kotlin/analysis/src/org/jetbrains/kotlin/idea/references/KtReference.kt:54 | an element is in the result exactly when some descriptor resolves to it |
| KtReference.LabelTargets | plugins/kotlin/analysis/src/org/jetbrains/kotlin/idea/references/KtReference.kt:76-84 | nothing for a non-reference expression; the label target as a singleton when there is one; otherwise the ambiguous targets |
| KtReference.ResolveWithDescriptors | plugins/kotlin/analysis/src/org/jetbrains/kotlin/idea/references/KtReference.kt:48-63 | with descriptors, the de-duplicated union of their resolutions; without, the label targets, and nothing when there are none or the element is not a reference expression |
| KtReference.ResolveToPsiElements | plugins/kotlin/analysis/src/org/jetbrains/kotlin/idea/references/KtReference.kt:42-46 | an EMPTY binding context resolves to nothing |
| KtReference.Resolve | plugins/kotlin/analysis/src/org/jetbrains/kotlin/idea/references/KtReference.kt:86-89 | one result per resolved element, in the same order |
| KtReference.DescriptorsIgnoreLabels | plugins/kotlin/analysis/src/org/jetbrains/kotlin/idea/references/KtReference.kt:53-60 | with descriptors, the labels of the context do not affect the result |
| KtReference.ResolveOncePerTarget | plugins/kotlin/analysis/src/org/jetbrains/kotlin/idea/references/KtReference.kt:48-89 | with descriptors, `resolve` gives distinct results, one for each element some descriptor resolves to |
| KtReference.LabelTargetWins | plugins/kotlin/analysis/src/org/jetbrains/kotlin/idea/references/KtReference.kt:57-83 | with no descriptors, a reference expression with a label target resolves to exactly that target |
| KtReference.NonReferenceWithoutDescriptors | plugins/kotlin/analysis/src/org/jetbrains/kotlin/idea/references/KtReference.kt:57-77 | with no descriptors, an element that is not a reference expression resolves to nothing |
| GradleScriptInfo.Wrap | plugins/kotlin/gradle/gradle-java/src/org/jetbrains/kotlin/idea/gradleJava/scripting/roots/GradleScriptInfo.kt:57-60 | `Int` arithmetic: the result is in the `Int` range and differs from the exact value by a multiple of 2^32 |
| GradleScriptInfo.WrapStep | plugins/kotlin/gradle/gradle-java/src/org/jetbrains/kotlin/idea/gradleJava/scripting/roots/GradleScriptInfo.kt:57-60 | wrapping an intermediate `31 * result + h` does not change the final wrapped value |
| GradleScriptInfo.HashUnits | plugins/kotlin/gradle/gradle-java/src/org/jetbrains/kotlin/idea/gradleJava/scripting/roots/GradleScriptInfo.kt:57 | the loop `h = 31 * h + c` in `Int` arithmetic is the base-31 polynomial of the code units, wrapped once |
| GradleScriptInfo.StringHash | plugins/kotlin/gradle/gradle-java/src/org/jetbrains/kotlin/idea/gradleJava/scripting/roots/GradleScriptInfo.kt:57 | `String.hashCode` is the wrapped polynomial of the UTF-16 code units; a one-character BMP string hashes to its char |
| GradleScriptInfo.SupplementaryHash | plugins/kotlin/gradle/gradle-java/src/org/jetbrains/kotlin/idea/gradleJava/scripting/roots/GradleScriptInfo.kt:57 | a supplementary character hashes as its surrogate pair: 31·0xD83D + 0xDE00 for U+1F600 |
| GradleScriptInfo.DefinitionHash | plugins/kotlin/gradle/gradle-java/src/org/jetbrains/kotlin/idea/gradleJava/scripting/roots/GradleScriptInfo.kt:59 | a missing definition hashes to 0, a present one to its own hash |
| GradleScriptInfo.ScriptInfo.Equals | plugins/kotlin/gradle/gradle-java/src/org/jetbrains/kotlin/idea/gradleJava/scripting/roots/GradleScriptInfo.kt:43-54 | true for the same object; false for null or another class; for another info, true exactly when the path prefix, model and definition are equal |
| GradleScriptInfo.ScriptInfo.HashCode | plugins/kotlin/gradle/gradle-java/src/org/jetbrains/kotlin/idea/gradleJava/scripting/roots/GradleScriptInfo.kt:56-61 | the hash is 31·(31·h(pathPrefix) + h(model)) + h(definition), wrapped to `Int`, with h(pathPrefix) the polynomial of its UTF-16 code units |
| GradleScriptInfo.EqualsSymmetric | plugins/kotlin/gradle/gradle-java/src/org/jetbrains/kotlin/idea/gradleJava/scripting/roots/GradleScriptInfo.kt:43-54 | `equals` is symmetric |
| GradleScriptInfo.EqualsTransitive | plugins/kotlin/gradle/gradle-java/src/org/jetbrains/kotlin/idea/gradleJava/scripting/roots/GradleScriptInfo.kt:43-54 | `equals` is transitive |
| GradleScriptInfo.EqualsImpliesEqualHash | plugins/kotlin/gradle/gradle-java/src/org/jetbrains/kotlin/idea/gradleJava/scripting/roots/GradleScriptInfo.kt:43-61 | equal infos have equal hash codes |

## Left out

- Native2Ascii: the `CharsetDecoder` driver that calls `decodeLoop`, `implFlush` and `implReset` is not modelled. The model states what each of those calls does.
- Native2Ascii: `ByteBuffer` and `CharBuffer` are modelled as sequences with a position and a limit. The buffer's mark is not modelled: `mark()` is a saved position.
- Native2Ascii: the model assumes a heap buffer whose array offset is 0. The decoder indexes `in.array()` by buffer position (Native2AsciiCharsetDecoder.java:58, 84), so on a direct buffer it throws `UnsupportedOperationException`, and on a sliced buffer it reads bytes from the wrong place. Neither case is modelled.
- Native2Ascii: the base charset is a parameter, a function from bytes to chars. `Character.isWhitespace` is written out as the list of whitespace code units of Java 9 and later. Java 8 also counted U+180E.
- Native2Ascii: `decodeLoop` is split into helper methods (`DecodeInput`, `DecodeBackslash`, `ReadEscape`, `ByteBuf.GetFour`). `BufferUnderflowException` is an `Option` result instead of an exception.
- Native2Ascii: an escape of the code unit 0xFFFF is kept as literal text, as the source does, because `unicode` cannot tell that code unit from its `INVALID_CHAR` sentinel.
- TestUtils.ExtractMultipleMarkerOffsets requires a non-empty marker. With an empty one the source loops forever; `EmptyMarkerNoProgress` states why.
- TestUtils.ExtractMarkerOffset requires a non-empty marker for the same reason.
- TestUtils: the analysis of the file, its retry on control-flow exceptions, `doHighlighting`, the document commits and the `// DISABLE-ERRORS` directive lookup are host calls. Their results are parameters.
- TestUtils: `Restore` and `ExtractRestore` reinsert markers at character indices (`Extraction.offsets`). The offsets handed back to the caller are `String` offsets in UTF-16 code units (`Extraction.reported`); the two agree for text without supplementary characters (`BmpReportedOffsets`).
- SmartStepInto: finding the targets and splitting the directives (`findListWithPrefixes`) are host calls. The splitter is a parameter. The assertion messages are not modelled beyond which target they name.
- SmartStepInto: the loop of `renderTableWithResults` is the separate method `RenderRows`.
- SmartStepInto.CheckTargets models the two loops of Kotlin `assert` calls as if assertions were enabled. On a JVM run without `-ea` they check nothing and the test always passes.
- SmartStepInto.ProtectThenRestore requires a text without `+`. The source's round trip through `+++` goes wrong when a `+` stands next to `\,` or when the text holds `+++` itself; `PlusBeforeEscapedComma` shows both inputs.
- SupertypeFix: the inner loop of `sortSubtypesFirst` is the separate method `MoveToFirstSupertype`.
- SupertypeFix: adding the function to the class (`addFunction`), the popup UI, the undo-transparent command and the descriptor renderers are not modelled. The renderers and the body template are host functions.
- SupertypeFix.CreateFunctionData requires that the function's container is a class. The source casts it unchecked and would throw otherwise.
- ClsStubBuilder: reading the binary class, the protobuf metadata and building the stubs are compiler library calls. The LOCAL visibility read from the class data is a parameter. Logging is not modelled.
- ClsStubBuilder: the annotation visitor's other methods do nothing in the source and are not modelled. `isRepeatableWithImplicitContainer` is a parameter.
- LibraryTracker: message-bus subscriptions are direct method calls. The file index is a parameter of `Before` and `RunScheduled`, so each may see a different index state. `invokeLater` is a queue of batches that `RunScheduled` drains. Cancellation on project disposal is not modelled.
- LibraryTracker: the modification counter is unbounded. The source's `long` would need 2^63 increments to overflow.
- KtReference: `runWithCancellationCheck` and the cast of the reference to a descriptor-based one are not modelled. Every reference in the model is descriptor-based.
- GradleScriptInfo: `buildConfiguration` is not modelled. It is file-system lookup plus library calls.
- GradleScriptInfo: the model's and the definition's own `hashCode` are parameters. The definition's `equals` is value equality.
