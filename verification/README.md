# hallomai converter core in Dafny

hallomai converts Scripture text between three serialisations. USFM is backslash markup such as `\p`, `\v 1` and `\w word|lemma\w*`. USX is the XML form. USJ is the JSON form. This project models the core of that converter in Dafny and proves properties of the model.

Both directions meet in one builder, `AosjStringModel`:

- Each reader walks its input and drives the builder. The builder assembles the USJ text of the document out of string fragments.
- The serialisers walk a USJ value and write USFM or eBible text.
- Separately, a typed document tree computes a character `index` for each object.

The modules follow the source files:

| module | file | what it models |
|---|---|---|
| `Wrappers`, `Strings`, `SortedMap`, `Json` | | shared values |
| `UsfmLexer` | `usfm_lexer.dfy` | `lexing_regex`, which cuts USFM text into typed tokens |
| `DeserializeUsfm` | `deserialize_usfm.dfy` | the token-driven USFM reader |
| `AosjModel` | `aosj_model.dfy` | the builder's operations, stated on a value snapshot of its fields |
| `AosjString` | `aosj_string_model.dfy` | the builder as a class whose methods update its fields |
| `DeserializeUsj` | `deserialize_usj.dfy` | the USJ reader |
| `DeserializeUsx` | `deserialize_usx.dfy` | the USX reader, over the XML reader's event sequence |
| `SerializeToUsj` | `serialize_to_usj.dfy` | the `"type": "USJ"` marking and `add_sid_to_usj` |
| `SerializeToUsfm` | `serialize_to_usfm.dfy` | the USFM writer |
| `SerializeToEBible` | `serialize_to_e_bible.dfy` | the eBible writer |
| `StructsModel` | `structs_model.dfy` | the typed tree of `src/structs_model`: the `init_index` operations and the `Root` container |

The shared values stand for the Rust types the core uses:

- `Option` and `Result`;
- `Vec::join` and `str::trim`;
- `BTreeMap<String, _>`, an association list whose keys are kept in increasing order;
- serde_json's `Value` and its compact printing.

The model follows one pattern throughout:

- **Loops and in-place updates become imperative Dafny.** Each reader loop is a method. The builder is a class. Each `init_index` loop is a method.
- **Each imperative member is proved against a pure function.** The function states what one step, one run or one call computes. The method's `ensures` ties its result or its new state to that function.
- **Properties are proved about the functions.** Examples are round trips, preserved invariants, panic conditions and "nothing else changes".

Rust's `unwrap()` on `None` and `panic!` become a `Failure(Panic)` result in the readers and writers. The builder operations themselves require their no-panic conditions: `CanAddString`, `CanCloseTop`, `CanEndSpan` and `CanAssemble`, in `AosjModel` and on the `AosjStringModel` class alike. `OpenFrameAcceptsText`, `ClosingNeedsOnlyDepth` and `AssemblyNeedsVersion` characterise those conditions. Every reader tests the condition before each builder call and returns `Failure(Panic)` where the Rust builder would panic, so the panic path is modelled at the reader level.


## Model

| member | source | states |
|---|---|---|
| AosjModel.New | src/aosj_string/aosj_string_model.rs:30-40 | a new builder has no paras, no open frame, no parent element and no version, and its frames are well formed |
| AosjModel.PushElement | src/aosj_string/aosj_string_model.rs:42-47 | exactly one element, with the given tag name and attributes, is appended to `parentEls`; nothing else changes |
| AosjModel.PopParentEl | src/aosj_string/aosj_string_model.rs:287-289 | popping through the `parent_els` accessor removes the last element when there is one, leaves an empty stack empty, and changes nothing else |
| AosjModel.FirstUnexpected | src/aosj_string/aosj_string_model.rs:59-63 | the position, in key order, of the first key outside the allowed set: every key before it is allowed and the key at it is not |
| AosjModel.CheckAllowed | src/aosj_string/aosj_string_model.rs:59-63 | the key scan succeeds if and only if every key is allowed |
| AosjModel.Require | src/aosj_string/aosj_string_model.rs:53-58 | a required-key check succeeds if and only if the key is present and the later checks succeed |
| AosjModel.ValidateAttributes | src/aosj_string/aosj_string_model.rs:50-113 | for each of para, book, chapter and char, success if and only if the required keys are present and every key is allowed; any other tag is accepted |
| AosjModel.AttributeEntries | src/aosj_string/aosj_string_model.rs:121-129 | one `"key": "value"` entry per attribute, with sid, vid and eid skipped and style renamed marker; never more entries than attributes |
| AosjModel.AttributeEntriesAppend | src/aosj_string/aosj_string_model.rs:121-129 | entries come out in key order: the entries of a concatenation are the entries of the first run followed by those of the second |
| AosjModel.GetAttributes | src/aosj_string/aosj_string_model.rs:118-132 | the innermost parent element's entries joined by ", ", or "" when there is no parent element |
| AosjModel.AddRootMetadata | src/aosj_string/aosj_string_model.rs:136-138 | the version maps to the argument, every other root attribute keeps its value, and nothing else changes |
| AosjModel.PushFrame | src/aosj_string/aosj_string_model.rs:140-142 | one new frame holding exactly the opening fragment goes on top; the frames below and the rest of the state are kept; well-formed frames stay well formed |
| AosjModel.AppendToTop | src/aosj_string/aosj_string_model.rs:194-199 | one fragment is appended to the top frame; the frames below and the rest of the state are kept |
| AosjModel.StartBook | src/aosj_string/aosj_string_model.rs:140-142 | one new frame holding the book opening goes on top; nothing else changes |
| AosjModel.StartNewPara | src/aosj_string/aosj_string_model.rs:159-161 | one new frame holding the para opening goes on top; nothing else changes |
| AosjModel.StartAddCharMarker | src/aosj_string/aosj_string_model.rs:208-212 | one new frame holding the char opening goes on top; nothing else changes |
| AosjModel.StartAddNote | src/aosj_string/aosj_string_model.rs:242-244 | one new frame holding the note opening goes on top; nothing else changes |
| AosjModel.AddStringToInPara | src/aosj_string/aosj_string_model.rs:178-188 | an empty buffer changes nothing; otherwise the joined text, quoted and followed by a comma, is appended to the top frame and nothing else changes |
| AosjModel.AddChapter | src/aosj_string/aosj_string_model.rs:190-192 | one chapter entry is appended to `paras`; the frames are not touched |
| AosjModel.AddVerseToInPara | src/aosj_string/aosj_string_model.rs:194-199 | one verse fragment is appended to the top frame; nothing else changes |
| AosjModel.AddMilestone | src/aosj_string/aosj_string_model.rs:201-206 | one milestone fragment is appended to the top frame; nothing else changes |
| AosjModel.DropTrailingComma | src/aosj_string/aosj_string_model.rs:146-150 | a last character that is a comma is dropped; any other last character is kept |
| AosjModel.CloseFrame | src/aosj_string/aosj_string_model.rs:145-152 | the frame with its last fragment's trailing comma dropped and the closing appended; earlier fragments unchanged |
| AosjModel.EndNewPara | src/aosj_string/aosj_string_model.rs:163-176 | the closed top frame, joined by spaces, is appended to `paras` and every frame is cleared; nothing else changes |
| AosjModel.EndBook | src/aosj_string/aosj_string_model.rs:144-157 | the same closing as `end_new_para`: one entry more in `paras`, no frame left open |
| AosjModel.FlushedTop | src/aosj_string/aosj_string_model.rs:215-222 | the span's frame after the buffer is flushed into it ends with a non-empty fragment |
| AosjModel.ClosedSpanNonEmpty | src/aosj_string/aosj_string_model.rs:223-239 | the closed span handed to the enclosing frame is never empty, so the frames stay well formed |
| AosjModel.EndSpan | src/aosj_string/aosj_string_model.rs:214-240 | closing a span keeps the frames well formed |
| AosjModel.EndAddCharMarker | src/aosj_string/aosj_string_model.rs:214-240 | the char span's frame is closed and becomes exactly one fragment of the frame below; one frame fewer; nothing else changes |
| AosjModel.EndAddNote | src/aosj_string/aosj_string_model.rs:246-272 | the same closing as `end_add_char_marker`, for a note |
| AosjModel.AssembleModel | src/aosj_string/aosj_string_model.rs:276-284 | the document text opens with the recorded version and ends with `]}`; with no finished item the content list is empty, with one it is exactly that item |
| AosjModel.AssembleOneMore | src/aosj_string/aosj_string_model.rs:276-284 | finishing one more item inserts it just before the closing `]}`, after a comma when items were already there, and keeps the earlier text |
| AosjModel.AssemblyNeedsVersion | src/aosj_string/aosj_string_model.rs:276-284 | `assemble_model` unwraps the version (`CanAssemble`): a new builder cannot be assembled, and one that `add_root_metadata` gave a version can |
| AosjModel.ClosingNeedsOnlyDepth | src/aosj_string/aosj_string_model.rs:145-147 | with well-formed frames, closing a para or book panics only when no frame is open (`CanCloseTop`), and closing a span only when fewer than two are open (`CanEndSpan`) |
| AosjModel.OpenFrameAcceptsText | src/aosj_string/aosj_string_model.rs:178-188 | `add_string_to_in_para` pops a frame only for a non-empty buffer (`CanAddString`): once a book or para is open it takes any buffer, and with no frame open it takes exactly the empty one |
| AosjModel.ParaWithTextIsOneEntry | src/aosj_string/aosj_string_model.rs:159-188 | a para opened, given one run of text and closed becomes exactly one entry; the text item's trailing comma is dropped before " ] }" |
| AosjModel.CharSpanRoundTrip | src/aosj_string/aosj_string_model.rs:208-240 | a char span opened and closed on a non-empty buffer leaves the depth as it was and adds exactly one fragment, the whole span, to the enclosing frame |
| AosjString.AosjStringModel.constructor | src/aosj_string/aosj_string_model.rs:30-40 | the new builder's snapshot is `AosjModel.New` |
| AosjString.AosjStringModel.PushElement | src/aosj_string/aosj_string_model.rs:42-47 | the builder moves as `AosjModel.PushElement` |
| AosjString.AosjStringModel.PopParentEl | src/aosj_string/aosj_string_model.rs:287-289 | the builder moves as `AosjModel.PopParentEl` |
| AosjString.AosjStringModel.ScanKeys | src/aosj_string/aosj_string_model.rs:59-63 | the loop over the keys returns what `AosjModel.CheckAllowed` states |
| AosjString.AosjStringModel.ValidateAttributes | src/aosj_string/aosj_string_model.rs:50-113 | returns what `AosjModel.ValidateAttributes` states, so the if-and-only-if per tag holds for it |
| AosjString.AosjStringModel.GetAttributes | src/aosj_string/aosj_string_model.rs:118-132 | the loop over the innermost element's attributes returns `AosjModel.GetAttributes` |
| AosjString.AosjStringModel.AddRootMetadata | src/aosj_string/aosj_string_model.rs:136-138 | the builder moves as `AosjModel.AddRootMetadata` |
| AosjString.AosjStringModel.StartBook | src/aosj_string/aosj_string_model.rs:140-142 | the builder moves as `AosjModel.StartBook` |
| AosjString.AosjStringModel.PopAndClose | src/aosj_string/aosj_string_model.rs:145-153 | pops the top frame and returns it closed as `AosjModel.CloseFrame` states; the other fields are unchanged |
| AosjString.AosjStringModel.EndBook | src/aosj_string/aosj_string_model.rs:144-157 | the builder moves as `AosjModel.EndBook` |
| AosjString.AosjStringModel.StartNewPara | src/aosj_string/aosj_string_model.rs:159-161 | the builder moves as `AosjModel.StartNewPara` |
| AosjString.AosjStringModel.EndNewPara | src/aosj_string/aosj_string_model.rs:163-176 | the builder moves as `AosjModel.EndNewPara` |
| AosjString.AosjStringModel.AddStringToInPara | src/aosj_string/aosj_string_model.rs:178-188 | the builder moves as `AosjModel.AddStringToInPara` and the caller's buffer comes back cleared |
| AosjString.AosjStringModel.AddChapter | src/aosj_string/aosj_string_model.rs:190-192 | the builder moves as `AosjModel.AddChapter` |
| AosjString.AosjStringModel.AddVerseToInPara | src/aosj_string/aosj_string_model.rs:194-199 | the builder moves as `AosjModel.AddVerseToInPara` |
| AosjString.AosjStringModel.AddMilestone | src/aosj_string/aosj_string_model.rs:201-206 | the builder moves as `AosjModel.AddMilestone` |
| AosjString.AosjStringModel.StartAddCharMarker | src/aosj_string/aosj_string_model.rs:208-212 | the builder moves as `AosjModel.StartAddCharMarker` |
| AosjString.AosjStringModel.EndSpan | src/aosj_string/aosj_string_model.rs:215-239 | the builder moves as `AosjModel.EndSpan` and the buffer comes back cleared |
| AosjString.AosjStringModel.EndAddCharMarker | src/aosj_string/aosj_string_model.rs:214-240 | the builder moves as `AosjModel.EndAddCharMarker` and the buffer comes back cleared |
| AosjString.AosjStringModel.StartAddNote | src/aosj_string/aosj_string_model.rs:242-244 | the builder moves as `AosjModel.StartAddNote` |
| AosjString.AosjStringModel.EndAddNote | src/aosj_string/aosj_string_model.rs:246-272 | the builder moves as `AosjModel.EndAddNote` and the buffer comes back cleared |
| AosjString.AosjStringModel.AssembleModel | src/aosj_string/aosj_string_model.rs:276-284 | returns `AosjModel.AssembleModel` of the current state |
| AosjString.FirstUnexpectedIs | src/aosj_string/aosj_string_model.rs:59-63 | a scan that stops at the first disallowed key stops at `AosjModel.FirstUnexpected` |
| UsfmLexer.Rank | src/deserialize_usfm.rs:17-36 | every token category has a position in the declared order of the patterns, and that position holds it |
| UsfmLexer.FirstMatching | src/deserialize_usfm.rs:164-172 | the search over the patterns from a given position stops at the first pattern that matches inside the piece; every pattern skipped before it does not match |
| UsfmLexer.Classify | src/deserialize_usfm.rs:162-173 | a piece yields no token exactly when no pattern matches inside it; otherwise the token's category is the first in declared order that matches and its value is that pattern's match, not the whole piece |
| UsfmLexer.ClassifyAll | src/deserialize_usfm.rs:162-173 | at most one token per piece, in input order; when every piece matches some pattern there is exactly one token per piece, each the classification of its piece |
| UsfmLexer.LexingRegex | src/deserialize_usfm.rs:56-182 | the loop over the pieces of the combined expression produces exactly the tokens of `ClassifyAll` |
| UsfmLexer.ClassifyOn | src/deserialize_usfm.rs:164-172 | the inner loop over the patterns with its `break` returns exactly the classification of the piece |
| UsfmLexer.EarlierCategoryWins | src/deserialize_usfm.rs:73-82 | a piece that the attribute pattern matches inside, and no chapter or verse pattern, becomes an attribute token carrying only the inner match, even when it was cut out as a default attribute |
| DeserializeUsfm.Marker | src/deserialize_usfm.rs:207 | a marker never contains a backslash and is never longer than the token value; a value without backslash or white space is its own marker |
| DeserializeUsfm.MarkerIsTrimmedValue | src/deserialize_usfm.rs:207 | `trim` then `replace("\\", "")`: the marker is the slice of the value left between its leading and trailing white space, with its backslashes removed and every other character kept in order |
| DeserializeUsfm.MarkerOfTag | src/deserialize_usfm.rs:207 | a start tag, a backslash and a name followed by white space, has that name alone as its marker |
| DeserializeUsfm.NumberedAttributes | src/deserialize_usfm.rs:277-303 | a chapter or verse carries exactly the keys "marker" (its marker) and "number", present exactly when the token holds a digit and then the first run of digits |
| DeserializeUsfm.OpenPara | src/deserialize_usfm.rs:262-276 | pushing a "para" element with the pending attributes adds exactly one open frame and records that element; finished paragraphs and reader variables are unchanged |
| DeserializeUsfm.OpenChar | src/deserialize_usfm.rs:218-261 | pushing a "char" element adds exactly one open frame and records that element; finished paragraphs and reader variables are unchanged |
| DeserializeUsfm.FlushAndEndPara | src/deserialize_usfm.rs:314-323 | flushing the buffer and closing the paragraph panics exactly when a non-empty buffer finds no open frame or no frame is left to close; otherwise the buffer is emptied, no frame is left open and exactly one entry is finished, the reader variables unchanged |
| DeserializeUsfm.StepStartTag | src/deserialize_usfm.rs:211-276 | `\usfm` only sets the state; `\id` records marker "id" as pending and sets state "book"; `\bd`, `\qs`, `\w` and `\+it` open a character span and set state "char"; any other marker closes a paragraph that holds text, panicking exactly when that closing does and otherwise finishing exactly one more entry, or else opens a paragraph with exactly one new frame; the state becomes "para", `in_para` is set and the marker is pending for the next paragraph |
| DeserializeUsfm.StepChapter | src/deserialize_usfm.rs:277-290 | a chapter token adds exactly one finished chapter entry numbered by the first digit run, clears the pending attributes and sets state "c", leaving the buffer and open frames as they were |
| DeserializeUsfm.StepVerse | src/deserialize_usfm.rs:291-303 | a verse token panics exactly when no frame is open; otherwise it appends one verse item numbered by the first digit run to the innermost frame and sets state "verse" |
| DeserializeUsfm.StepEol | src/deserialize_usfm.rs:304-323 | end of line closes the book in state "book", panicking exactly when it cannot be closed; stores the joined buffer as the version in state "usfm"; otherwise inside a paragraph opens a new one (empty buffer) or closes the current one; outside a paragraph it has no effect; `in_para` never changes |
| DeserializeUsfm.StepEndTag | src/deserialize_usfm.rs:324-327 | an end tag has no effect outside state "char"; in state "char" it panics exactly when the span cannot be closed, and otherwise closes one frame and consumes the buffer |
| DeserializeUsfm.StepText | src/deserialize_usfm.rs:341-366 | the first word in state "book" becomes the book code and is not buffered; the first word in state "para" opens a paragraph and is buffered; the first word in state "char" opens a second span and is dropped; every other text token is appended to the buffer |
| DeserializeUsfm.Step | src/deserialize_usfm.rs:205-371 | one token either panics or succeeds; once set, `in_para` stays set; attribute, milestone, bare-slash, break and unknown tokens have no effect |
| DeserializeUsfm.RunFrom | src/deserialize_usfm.rs:205-371 | a run of tokens can fail only by a panic |
| DeserializeUsfm.Finish | src/deserialize_usfm.rs:372-378 | at the end a paragraph is flushed and closed exactly when `in_para` holds, and the document is then assembled, panicking exactly when that is impossible |
| DeserializeUsfm.Deserialize | src/deserialize_usfm.rs:185-379 | the reader fails only by a panic, and a document it returns comes from a run of every token without a panic and is assembled from a builder holding a version |
| DeserializeUsfm.EmptyTextPanics | src/deserialize_usfm.rs:372-378 | a text without tokens never records a version, so the final `assemble_model` panics |
| DeserializeUsfm.InParaStaysSet | src/deserialize_usfm.rs:262-276 | over any successful run, `in_para` once true stays true |
| DeserializeUsfm.TextIsBuffered | src/deserialize_usfm.rs:363-365 | a run of text tokens, where no first-word rule applies, appends their values to the buffer verbatim and changes nothing else |
| DeserializeUsfm.IdThenWordStartsBook | src/deserialize_usfm.rs:214-217 | `\id` then a word opens exactly one book frame whose attributes are marker "id" and the word as code, with an empty buffer and state "book" |
| DeserializeUsfm.CharFirstWordOpensSecondSpan | src/deserialize_usfm.rs:358-362 | `\bd` then a word opens two character frames and drops the word |
| DeserializeUsfm.VerseRangeRecordsFirstNumber | src/deserialize_usfm.rs:291-303 | a verse range `\v 1-2` records only the number "1" |
| DeserializeUsfm.FirstRunOfVerseRange | src/deserialize_usfm.rs:283-285 | the first digit run of `\v 1-2` is "1" |
| DeserializeUsfm.OpenParaOn | src/deserialize_usfm.rs:270-273 | on the mutable builder, the push and paragraph start have the effect `OpenPara` states |
| DeserializeUsfm.OpenCharOn | src/deserialize_usfm.rs:229-232 | on the mutable builder, the push and span start have the effect `OpenChar` states |
| DeserializeUsfm.FlushAndEndParaOn | src/deserialize_usfm.rs:314-323 | on the mutable builder, flushing and closing the paragraph panics or succeeds exactly as `FlushAndEndPara` states |
| DeserializeUsfm.StartTagArm | src/deserialize_usfm.rs:211-276 | the start-tag arms of the loop, run on the builder and the loop variables, agree with `StepStartTag` |
| DeserializeUsfm.ChapterArm | src/deserialize_usfm.rs:277-290 | the chapter arm agrees with `StepChapter` |
| DeserializeUsfm.VerseArm | src/deserialize_usfm.rs:291-303 | the verses arm agrees with `StepVerse`, panic included |
| DeserializeUsfm.EolArm | src/deserialize_usfm.rs:304-323 | the end-of-line arms agree with `StepEol`, panic included |
| DeserializeUsfm.EndTagArm | src/deserialize_usfm.rs:324-327 | the end-tag arm agrees with `StepEndTag`, panic included |
| DeserializeUsfm.TextArm | src/deserialize_usfm.rs:341-366 | the text arms agree with `StepText` |
| DeserializeUsfm.MarkerTokenOn | src/deserialize_usfm.rs:207-327 | the loop's arms for the tokens that carry a marker agree with `Step`, panic included |
| DeserializeUsfm.StepOn | src/deserialize_usfm.rs:205-371 | one turn of the loop on the builder agrees with `Step` |
| DeserializeUsfm.DeserializeFromString | src/deserialize_usfm.rs:185-379 | the reader over the lexed text returns exactly `Deserialize` of the tokens: the run of `Step` from the initial state followed by `Finish` |
| DeserializeUsj.Escape | src/deserialize_usj.rs:16-19 | a quote or backslash gains one backslash in front, every other character is kept, and the text never shrinks |
| DeserializeUsj.EscapeAppend | src/deserialize_usj.rs:19 | the replacement works character by character: escaping a concatenation escapes each part |
| DeserializeUsj.UnescapeEscape | src/deserialize_usj.rs:19 | escaping loses nothing: dropping each inserted backslash gives back the original text |
| DeserializeUsj.AttributesOf | src/deserialize_usj.rs:23-29 | the attribute loop panics exactly when some member other than "content" and "type" is not a string; otherwise it holds exactly those members with their string values |
| DeserializeUsj.CollectAttributes | src/deserialize_usj.rs:25-29 | the loop over the object's members computes `AttributesOf` |
| DeserializeUsj.ReadContent | src/deserialize_usj.rs:14-69 | a string becomes one escaped text item of the open frame, panicking exactly when no frame is open; an object without a type or with a non-string attribute panics; anything else changes nothing; the frames below the top are never touched and the top one only grows |
| DeserializeUsj.ReadElement | src/deserialize_usj.rs:34-64 | a verse or ms adds exactly its item to the open frame and pops its element, panicking exactly when no frame is open; a char or note adds exactly one item; any other type changes nothing and leaves its element pushed |
| DeserializeUsj.ReadSpan | src/deserialize_usj.rs:43-62 | a char or note span, once its children are read, closes into exactly one new item of the enclosing frame |
| DeserializeUsj.ReadChildren | src/deserialize_usj.rs:45-49 | the children are read in order, and the frames below the top are untouched |
| DeserializeUsj.ReadContentPanicsIff | src/deserialize_usj.rs:14-69 | inside an open well-formed frame, `read_content` panics exactly when the value holds a visited object without a type or with a non-string attribute |
| DeserializeUsj.ReadElementPanicsIff | src/deserialize_usj.rs:34-64 | the type dispatch panics exactly when a char or note holds an unreadable child |
| DeserializeUsj.ReadSpanPanicsIff | src/deserialize_usj.rs:43-62 | a char or note span panics exactly when one of its children is unreadable |
| DeserializeUsj.ReadChildrenPanicsIff | src/deserialize_usj.rs:45-49 | the loop over the children panics exactly when one of them is unreadable |
| DeserializeUsj.KnownContentKeepsParents | src/deserialize_usj.rs:35-62 | a value whose visited objects are all verses, milestones, chars and notes leaves the stack of entered elements as it found it |
| DeserializeUsj.KnownElementPops | src/deserialize_usj.rs:35-62 | such an element pops exactly the element pushed for it |
| DeserializeUsj.KnownSpanPops | src/deserialize_usj.rs:43-62 | a char or note span of such children pops exactly the element pushed for it |
| DeserializeUsj.KnownChildrenKeepParents | src/deserialize_usj.rs:45-49 | children of such kinds leave the stack of entered elements as they found it |
| DeserializeUsj.ReadBookChildren | src/deserialize_usj.rs:96-101 | the book's children, each followed by a pop, keep the frames below the top and panic exactly when one child is unreadable |
| DeserializeUsj.ReadBook | src/deserialize_usj.rs:94-103 | the book branch adds exactly one finished item, which starts with the book's opening fragment, leaves no frame open, and panics exactly when a child is unreadable |
| DeserializeUsj.ReadPara | src/deserialize_usj.rs:107-116 | the para branch adds exactly one finished item, which starts with the paragraph's opening fragment, leaves no frame open, and panics exactly when a child is unreadable |
| DeserializeUsj.TopCount | src/deserialize_usj.rs:93-118 | the number of top-level items that add a finished item (books, chapters and paras) is at most the number of items |
| DeserializeUsj.TopElement | src/deserialize_usj.rs:80-120 | a top-level book, chapter or para adds exactly one finished item and nothing else adds one; a chapter's item is its chapter entry with its attributes and a book's or para's starts with its opening fragment; an object of another type only pushes its element, with its attributes and its type; with no frame open it panics exactly when the item is not readable |
| DeserializeUsj.RunTop | src/deserialize_usj.rs:79-122 | the top-level loop keeps the earlier items, adds one item per book, chapter and para, and panics exactly when some item is not readable |
| DeserializeUsj.RunTopEntries | src/deserialize_usj.rs:79-122 | each book, chapter and para of the top-level loop finishes the item at its own position among them, shaped by its own attributes |
| DeserializeUsj.DocumentModelOfRun | src/deserialize_usj.rs:72-124 | a walk of the content from the builder given the version yields the document model: that version, no open frame, and one item per book, chapter and para in order |
| DeserializeUsj.DeserializeUsj | src/deserialize_usj.rs:72-124 | a missing version fails with "Missing version" and a non-string one with "Version should be a string"; otherwise the walk panics exactly when a top-level item is unreadable, and the document is assembled from a builder holding that version whose k-th finished item belongs to the k-th book, chapter or para: a chapter's is its chapter entry, a book's or para's starts with its opening fragment |
| DeserializeUsj.EmptyDocument | src/deserialize_usj.rs:76-123 | a document with only a version prints the version and an empty content list |
| DeserializeUsj.ReadContentOn | src/deserialize_usj.rs:14-69 | the recursive `read_content` on the mutable builder has exactly the effect, or the panic, of `ReadContent` |
| DeserializeUsj.ReadElementOn | src/deserialize_usj.rs:34-64 | the type dispatch on the builder agrees with `ReadElement` |
| DeserializeUsj.ReadSpanOn | src/deserialize_usj.rs:43-62 | the char and note arms on the builder agree with `ReadSpan` |
| DeserializeUsj.ReadChildrenOn | src/deserialize_usj.rs:45-49 | the loop over the children on the builder agrees with `ReadChildren` |
| DeserializeUsj.ReadBookChildrenOn | src/deserialize_usj.rs:96-101 | the book's child loop on the builder agrees with `ReadBookChildren` |
| DeserializeUsj.ReadBookOn | src/deserialize_usj.rs:94-103 | the book arm on the builder agrees with `ReadBook` |
| DeserializeUsj.ReadParaOn | src/deserialize_usj.rs:107-116 | the para arm on the builder agrees with `ReadPara` |
| DeserializeUsj.TopElementOn | src/deserialize_usj.rs:81-119 | one pass of the top-level loop on the builder agrees with `TopElement` |
| DeserializeUsj.DeserializeFromUsj | src/deserialize_usj.rs:72-124 | `deserialize_from_file_usj` on the string builder returns exactly `DeserializeUsj` of the document |
| DeserializeUsx.Flush | src/deserialize_usx.rs:20-22 | flushing the buffer panics exactly when it holds text and no frame is open; otherwise the buffer ends empty |
| DeserializeUsx.StartElement | src/deserialize_usx.rs:19-49 | a start element panics exactly when the flush panics or a `usx` element has no version; otherwise the element stays entered, a `usx` element sets the version, and a para, book, char or note opens exactly one frame starting with its opening fragment while the frames below stay |
| DeserializeUsx.EmptyElement | src/deserialize_usx.rs:51-71 | an empty element is entered and left again; without an `eid` a chapter adds its chapter entry, and a verse or ms adds its item to the open frame, panicking exactly when none is open; with an `eid` or any other name nothing is added |
| DeserializeUsx.TextEvent | src/deserialize_usx.rs:73-77 | text is buffered only below the root element, and panics there exactly when it cannot be unescaped |
| DeserializeUsx.EndElement | src/deserialize_usx.rs:79-103 | an end event panics when no element is entered; a para or book closes its frame into exactly one new finished item; a char or note closes its span into the frame below; anything else only leaves the element; in every case exactly one element is left |
| DeserializeUsx.Step | src/deserialize_usx.rs:18-114 | one event either panics or succeeds, and an event the loop ignores changes nothing |
| DeserializeUsx.Drive | src/deserialize_usx.rs:17-116 | the loop can fail only by a panic, and a run of ignored events stops at end of file with the state unchanged |
| DeserializeUsx.Deserialize | src/deserialize_usx.rs:8-117 | a panic during the loop is a panic of the reader; at a reader error the error is printed, and it is always one of the events; at end of file the assembled document is printed, or the reader panics when no version was recorded |
| DeserializeUsx.OnlyIgnoredEventsPanic | src/deserialize_usx.rs:105-113 | a file of events the loop ignores, whether its end-of-file event comes or not, ends in a panic: no version was recorded |
| DeserializeUsx.DriveStopsAtError | src/deserialize_usx.rs:109-112 | a run stops on a reader error only when that error is one of its events |
| DeserializeUsx.DriveIgnoresRest | src/deserialize_usx.rs:105-112 | nothing after the first end of file or reader error is read |
| DeserializeUsx.ParaRoundTrip | src/deserialize_usx.rs:19-103 | a paragraph's start, one text and its end become exactly one finished item: the paragraph's opening, the text and the closing; the paragraph element is entered and left again |
| DeserializeUsx.ParaOpensAndReads | src/deserialize_usx.rs:19-77 | a paragraph's start and its text open its frame and buffer the text |
| DeserializeUsx.TextThenEnd | src/deserialize_usx.rs:73-77 | text inside an entered element is buffered before the end event is handled |
| DeserializeUsx.ParaCloses | src/deserialize_usx.rs:79-103 | the end of a paragraph whose text is buffered adds exactly the finished paragraph item and leaves the paragraph element |
| DeserializeUsx.StartOn | src/deserialize_usx.rs:19-49 | the start arm on the mutable builder agrees with `StartElement`, panic included |
| DeserializeUsx.EmptyOn | src/deserialize_usx.rs:51-71 | the empty-element arm on the builder agrees with `EmptyElement` |
| DeserializeUsx.EndOn | src/deserialize_usx.rs:79-103 | the end arm on the builder agrees with `EndElement` |
| DeserializeUsx.StepOn | src/deserialize_usx.rs:18-114 | one pass of the loop on the builder agrees with `Step` |
| DeserializeUsx.DeserializeFromEvents | src/deserialize_usx.rs:8-117 | the loop over the reader's events ends with exactly the outcome `Deserialize` describes: the printed document, the printed error, or a panic |
| SerializeToUsj.SerializeToUsj | src/serialize_to_usj.rs:7-17 | an object root carries "type": "USJ" afterwards; any other root is returned unchanged |
| SerializeToUsj.MarkUsj | src/serialize_to_usj.rs:9-11 | an object root gets "type": "USJ" and keeps every other key; any other root is kept |
| SerializeToUsj.SetSid | src/serialize_to_usj.rs:39 | the object afterwards has exactly the given `sid`, inserted or overwritten, and every other key keeps its value |
| SerializeToUsj.WithContent | src/serialize_to_usj.rs:43-54 | the object afterwards has the given content array and every other key keeps its value |
| SerializeToUsj.VerseWithSid | src/serialize_to_usj.rs:45-52 | a verse with a string number gets the sid "BOOK CHAPTER:NUMBER"; every other key keeps its value; any other item is kept whole |
| SerializeToUsj.VerseSid | src/serialize_to_usj.rs:45-51 | a paragraph item changes at most in its `sid`; a verse with a string number gets "BOOK CHAPTER:NUMBER", any other item is kept |
| SerializeToUsj.VersesWithSids | src/serialize_to_usj.rs:44-53 | the paragraph keeps its number of items, each given its own sid independently of the others |
| SerializeToUsj.ItemWithSid | src/serialize_to_usj.rs:27-57 | a chapter with a string number gets the sid "BOOK NUMBER" and keeps its other keys; a para with a content array keeps its other keys and its number of items, each given its verse sid; an item of any other kind is kept |
| SerializeToUsj.ItemChangesOnlySids | src/serialize_to_usj.rs:27-57 | a top-level item either differs at most by its `sid`, or is a para that keeps every other key and whose items differ at most by their `sid` |
| SerializeToUsj.BookBeforeFirst | src/serialize_to_usj.rs:21 | before any book with a string code, the book code is empty |
| SerializeToUsj.BookBeforeComesFromBook | src/serialize_to_usj.rs:28-33 | the book code in force before an item (`BookBefore`) is empty or the code of an earlier book |
| SerializeToUsj.BookBeforeIsLatest | src/serialize_to_usj.rs:28-33 | the book code before an item is the code of the latest earlier book with a string code |
| SerializeToUsj.ChapterBeforeFirst | src/serialize_to_usj.rs:22 | before any chapter with a string number, the chapter number is empty |
| SerializeToUsj.ChapterBeforeComesFromChapter | src/serialize_to_usj.rs:34-41 | the chapter number in force before an item (`ChapterBefore`) is empty or the number of an earlier chapter |
| SerializeToUsj.ChapterBeforeIsLatest | src/serialize_to_usj.rs:34-41 | the chapter number before an item is the number of the latest earlier chapter with a string number |
| SerializeToUsj.ItemsWithSids | src/serialize_to_usj.rs:25-59 | one result item per input item, each given its sids from the book code and chapter number in force before it |
| SerializeToUsj.AddSid | src/serialize_to_usj.rs:19-62 | a root that is not an object or has no content array is returned unchanged; otherwise every other key is kept and the content keeps its length |
| SerializeToUsj.ChapterGetsSid | src/serialize_to_usj.rs:34-41 | a chapter with a string number gets the sid "BOOK NUMBER" from the latest earlier book |
| SerializeToUsj.VerseGetsSid | src/serialize_to_usj.rs:42-55 | a verse directly inside a para gets "BOOK CHAPTER:NUMBER" from the latest book and chapter before the para |
| SerializeToUsj.AddSidItem | src/serialize_to_usj.rs:25-59 | each new top-level item is the old one given its sids |
| SerializeToUsj.ParaItems | src/serialize_to_usj.rs:43-54 | the new content of a para is its old content, item by item given their sids |
| SerializeToUsj.AddSidChangesOnlySids | src/serialize_to_usj.rs:19-62 | only `sid` keys are written: nothing below the direct items of a para changes |
| SerializeToUsj.ChapterWithoutStringNumber | src/serialize_to_usj.rs:36-40 | a chapter whose number is not a string gets no sid and leaves the chapter number for later verses unchanged |
| SerializeToUsj.NestedVersesKeepNoSid | src/serialize_to_usj.rs:44-53 | an item of a para that is not a verse is kept whole, so verses nested deeper get no sid |
| SerializeToUsj.VerseBeforeAnyChapter | src/serialize_to_usj.rs:21-48 | a verse in a para before any chapter gets "CODE :NUMBER", the chapter part empty |
| SerializeToUsj.BookOnlyBefore | src/serialize_to_usj.rs:21-33 | after a single book, the book code is its code and the chapter number is still empty |
| SerializeToUsj.SidVersesOn | src/serialize_to_usj.rs:44-53 | the loop over a para's items computes `VersesWithSids` |
| SerializeToUsj.SidVerseOn | src/serialize_to_usj.rs:45-52 | one turn of that loop computes `VerseWithSid` |
| SerializeToUsj.SidItemOn | src/serialize_to_usj.rs:26-58 | one turn of the top-level loop yields the item with its sids and advances the book code and chapter number |
| SerializeToUsj.SidItemsOn | src/serialize_to_usj.rs:24-60 | the top-level loop computes `ItemsWithSids` |
| SerializeToUsj.AddSidToUsj | src/serialize_to_usj.rs:19-62 | `add_sid_to_usj` returns exactly `AddSid` of its input |
| SerializeToUsj.SerializeParsed | src/serialize_to_usj.rs:7-17 | `serialize_to_usj` once the text is parsed returns exactly `SerializeToUsj` of the parsed value |
| SerializeToUsfm.Required | src/serialize_to_usfm.rs:67 | `obj.get(key).unwrap().as_str().unwrap()` panics exactly when the key is missing or not a string, and otherwise yields that string |
| SerializeToUsfm.PairsAppend | src/serialize_to_usfm.rs:88-92 | the attribute loop (`Pairs`) writes the members one after the other in key order, each as `key=value` and the separator when it is kept and not at all otherwise |
| SerializeToUsfm.PairsNoneKept | src/serialize_to_usfm.rs:88-92 | nothing is written when no member is kept |
| SerializeToUsfm.MsAttributesSeparator | src/serialize_to_usfm.rs:104-113 | the milestone loop (`MsAttributes`) writes ` \| ` exactly once, before the first attribute, and only when there is one; then every attribute other than type, marker and content as `key=value ` in key order |
| SerializeToUsfm.CharMarkers | src/serialize_to_usfm.rs:73-97 | the opening marker (`CharOpen`) is a backslash, a `+` when nested, the marker and a space; the closing one (`CharClose`) is the same with `*` in place of the space |
| SerializeToUsfm.WriteContent | src/serialize_to_usfm.rs:59-121 | a string is written verbatim; a verse is `\v N ` on a new line, panicking without a string number; a char is written by `WriteChar`; a milestone is its marker, its attributes and `\*`, panicking without a string marker; anything else writes nothing |
| SerializeToUsfm.WriteChar | src/serialize_to_usfm.rs:70-99 | a char panics exactly when it has no string marker or a child panics; otherwise it is framed by its opening and closing markers (both with `+` when nested), with its children written as nested, its default and its other attributes between them |
| SerializeToUsfm.WriteItems | src/serialize_to_usfm.rs:80-84 | writing the children can fail only by a panic |
| SerializeToUsfm.WriteItemsStep | src/serialize_to_usfm.rs:80-84 | the children are written one after the other, and a panic in one loses everything |
| SerializeToUsfm.WriteItemsSucceeds | src/serialize_to_usfm.rs:80-84 | the children are written without a panic exactly when each of them is |
| SerializeToUsfm.NestedCharGetsPlus | src/serialize_to_usfm.rs:73-95 | a char inside a char is written starting with `\+MARKER ` and ending with `\+MARKER*` |
| SerializeToUsfm.ParaCharHasNoPlus | src/serialize_to_usfm.rs:76-97 | a char directly inside a para is written starting with `\MARKER ` and ending with `\MARKER*` |
| SerializeToUsfm.BookText | src/serialize_to_usfm.rs:23-29 | a book whose children hold no string contributes no text |
| SerializeToUsfm.BookTextAppend | src/serialize_to_usfm.rs:24-28 | one more child adds its text when it is a string and nothing otherwise |
| SerializeToUsfm.TopElement | src/serialize_to_usfm.rs:19-48 | a book writes `\id CODE `, its strings and a newline, panicking without a string code; a chapter writes `\c N` and a newline, panicking without a string number; a para writes `\MARKER `, its children and a newline, panicking exactly when its marker is missing or a child panics; anything else writes nothing |
| SerializeToUsfm.TopElements | src/serialize_to_usfm.rs:17-50 | writing the top-level elements can fail only by a panic |
| SerializeToUsfm.TopElementsSucceeds | src/serialize_to_usfm.rs:18-49 | the top-level elements are written without a panic exactly when each of them is |
| SerializeToUsfm.TopElementsStep | src/serialize_to_usfm.rs:18-49 | the elements are written one after the other, and a panic in one is a panic of the whole |
| SerializeToUsfm.SerializeToUsfm | src/serialize_to_usfm.rs:7-56 | the document can fail only by a panic |
| SerializeToUsfm.SerializeToUsfmSucceeds | src/serialize_to_usfm.rs:7-56 | the document is written without a panic exactly when every top-level element is, and the text then starts with the `\usfm` header |
| SerializeToUsfm.EmptyDocument | src/serialize_to_usfm.rs:13-15 | a document without content is its header alone: `\usfm V` and a newline when the version is a string, nothing otherwise |
| SerializeToUsfm.HeaderLine | src/serialize_to_usfm.rs:13-15 | the header (`Header`) is one line, `\usfm `, the version and a newline, when the version is a string, and nothing otherwise |
| SerializeToUsfm.BookTextOn | src/serialize_to_usfm.rs:23-29 | the book arm's loop writes exactly `BookText` of the children |
| SerializeToUsfm.WriteItemsOn | src/serialize_to_usfm.rs:80-84 | the loop over the children writes exactly `WriteItems`, panic included |
| SerializeToUsfm.TopElementOn | src/serialize_to_usfm.rs:19-48 | one turn of the top-level loop writes exactly `TopElement` |
| SerializeToUsfm.SerializeToUsfmOn | src/serialize_to_usfm.rs:7-56 | the writer loop returns exactly `SerializeToUsfm` of the document |
| SerializeToEBible.WriteContent | src/serialize_to_e_bible.rs:41-114 | a string is written verbatim; a verse is `\v N ` on a new line, panicking without a string number; a char is written by `WriteChar`; a milestone is its marker, its attributes and `\*`; anything else writes nothing |
| SerializeToEBible.WriteChar | src/serialize_to_e_bible.rs:52-92 | a char panics exactly when it has no string marker or a child panics; otherwise it is framed by its opening and closing markers (`+` when nested), with its children, the `w` attributes and its other attributes between them |
| SerializeToEBible.WriteItems | src/serialize_to_e_bible.rs:62-66 | writing the children can fail only by a panic |
| SerializeToEBible.WordWithoutDefaultRepeatsAttributes | src/serialize_to_e_bible.rs:68-85 | the attribute part of a char (`WordAttributes`) for a `w` without a default writes its attributes twice: after ` \| ` with no separator, then again as `key=value ` pairs |
| SerializeToEBible.OtherCharsOmitDefault | src/serialize_to_e_bible.rs:68-85 | a char other than `w` writes no default, even when it has one |
| SerializeToEBible.MatchesUsfm | src/serialize_to_e_bible.rs:41-114 | on a value with no `w` word and no default, the eBible and USFM `write_content` write the same text and panic on the same input |
| SerializeToEBible.MatchesUsfmFrom | src/serialize_to_e_bible.rs:62-66 | the same agreement holds for the children of such a value |
| SerializeToEBible.WriteItemsStep | src/serialize_to_e_bible.rs:62-66 | the children are written one after the other, and a panic in one is a panic of the whole |
| SerializeToEBible.TopElement | src/serialize_to_e_bible.rs:14-32 | a book or para writes a bare newline and none of its content; a chapter writes `\c N` and a newline and panics exactly when its number is not a string; anything else writes nothing |
| SerializeToEBible.TopElements | src/serialize_to_e_bible.rs:13-33 | writing the top-level elements can fail only by a panic |
| SerializeToEBible.TopElementsSucceeds | src/serialize_to_e_bible.rs:14-32 | the top-level elements are written without a panic exactly when each of them is |
| SerializeToEBible.TopElementsStep | src/serialize_to_e_bible.rs:14-32 | the elements are written one after the other, and a panic in one is a panic of the whole |
| SerializeToEBible.SerializeToEBible | src/serialize_to_e_bible.rs:6-38 | the document can fail only by a panic |
| SerializeToEBible.PanicsOnlyOnChapterWithoutNumber | src/serialize_to_e_bible.rs:25-28 | the document is written without a panic exactly when no top-level chapter lacks a string number |
| SerializeToEBible.NewlinesAppend | src/serialize_to_e_bible.rs:19-27 | the line count of two appended texts is the sum of their line counts |
| SerializeToEBible.TopElementsNewlines | src/serialize_to_e_bible.rs:14-32 | with single-line chapter numbers, the elements write one line per book, para and chapter |
| SerializeToEBible.LineCount | src/serialize_to_e_bible.rs:6-38 | with single-line chapter numbers, the output has exactly one line per book, para and chapter after the version line: the content of books and paras never reaches it |
| SerializeToEBible.TopElementOn | src/serialize_to_e_bible.rs:15-31 | one turn of the top-level loop writes exactly `TopElement` |
| SerializeToEBible.SerializeToEBibleOn | src/serialize_to_e_bible.rs:6-38 | the writer loop returns exactly `SerializeToEBible` of the document |
| StructsModel.VerseObject.GetIndex | src/structs_model/verse_object.rs:15-17 | `get_index` returns the stored index, not a recomputed one |
| StructsModel.BookObject.Get | src/structs_model/book_object.rs:18-20 | `get` returns the object itself |
| StructsModel.Root.constructor | src/structs_model/root.rs:5-9 | a root holds exactly the type, version and content it is built with |
| StructsModel.Root.AddBook | src/structs_model/root.rs:12-14 | exactly one `Book` entry is appended at the end of the content; type and version are unchanged |
| StructsModel.Root.SetVersion | src/structs_model/root.rs:16-18 | the version becomes the argument, whatever it was; type and content are unchanged |
| StructsModel.VerseIndexed | src/structs_model/verse_object.rs:10-13 | a verse's index is the number of characters of its number, and nothing else changes |
| StructsModel.ChapterIndexed | src/structs_model/chapter_object.rs:11-13 | a chapter's index is the number of characters of its number, and nothing else changes |
| StructsModel.FigureIndexed | src/structs_model/figure_object.rs:12-14 | a figure's index is 0, and nothing else changes |
| StructsModel.MilestoneIndexed | src/structs_model/milestone_object.rs:12-14 | a milestone's index is 0, and nothing else changes |
| StructsModel.LeavesIdempotent | src/structs_model/verse_object.rs:10-13 | a second `init_index` on a verse, chapter, figure or milestone changes nothing |
| StructsModel.BookIndexed | src/structs_model/book_object.rs:10-16 | a book's index is the total number of characters of its content strings, and nothing else changes |
| StructsModel.CharChild | src/structs_model/char_marker_object.rs:18-43 | inside a char every structured child is re-initialised and a string is kept; a string then counts its characters, a verse the characters of its number, a milestone or figure 0 |
| StructsModel.ParaChild | src/structs_model/note_object.rs:15-36 | inside a paragraph, note, sidebar or table only verses and chars are re-initialised; milestones, figures, notes and strings are counted as stored |
| StructsModel.CharChildren | src/structs_model/char_marker_object.rs:17-43 | a char's content keeps its presence and length, each child handled on its own |
| StructsModel.ParaChildren | src/structs_model/note_object.rs:14-37 | a paragraph's or note's content keeps its presence and length, each child handled on its own |
| StructsModel.CharIndexed | src/structs_model/char_marker_object.rs:15-45 | a char's index is the sum of the contributions of its re-initialised children, and only the content and the index change |
| StructsModel.NoteIndexed | src/structs_model/note_object.rs:12-39 | a note's index is the sum of the contributions of its children, and only the content and the index change |
| StructsModel.ParaIndexed | src/structs_model/para_marker_object.rs:11-43 | a "b" paragraph without content gets index 1 and is otherwise unchanged; any other paragraph gets the sum of its children's contributions, with no extra 1 for "b" |
| StructsModel.ParaWalked | src/structs_model/sidebar_object.rs:19-42 | a sidebar walks each paragraph's content but never sets the paragraph's own index |
| StructsModel.SidebarIndexed | src/structs_model/sidebar_object.rs:13-45 | a sidebar's index is 1 for a "b" sidebar plus the contributions of every paragraph's content; each paragraph is walked, its own index untouched |
| StructsModel.CellWalked | src/structs_model/row_object.rs:15-38 | a cell's content is walked as a paragraph's is |
| StructsModel.CellsWalked | src/structs_model/row_object.rs:14-39 | the cells keep their presence and number, each cell's content walked |
| StructsModel.RowIndexed | src/structs_model/row_object.rs:12-41 | a row's index is the sum of the contributions of every cell's content |
| StructsModel.RowWalked | src/structs_model/table_object.rs:14-41 | a table walks each row's cells but never sets the row's own index |
| StructsModel.TableIndexed | src/structs_model/table_object.rs:12-43 | a table's index is the sum of the contributions of every cell of every row; each row is walked, its own index untouched |
| StructsModel.SidebarByParagraphs | src/structs_model/sidebar_object.rs:13-45 | a sidebar's index is 1 for a "b" sidebar plus, for each paragraph, what that paragraph's own `init_index` would give it, except that a "b" paragraph without content adds 0 |
| StructsModel.SidebarSkipsBlankParagraph | src/structs_model/para_marker_object.rs:13-17 | a "b" paragraph without content gets index 1 from its own `init_index`, yet a non-"b" sidebar holding only it gets index 0 |
| StructsModel.TableByRows | src/structs_model/table_object.rs:12-43 | a table's index is the sum of what each row's own `init_index` would give it, although the rows keep their old indexes |
| StructsModel.ChildKeepsShape | src/structs_model/char_marker_object.rs:18-43 | handling one child changes indexes and nothing else, however deep |
| StructsModel.ChildrenKeepShape | src/structs_model/char_marker_object.rs:17-43 | walking content changes indexes and nothing else, however deep |
| StructsModel.OnlyIndexesChange | src/structs_model/para_marker_object.rs:11-43 | `init_index` on a char, note or paragraph changes only indexes, its own and its descendants' |
| StructsModel.ChildIdempotent | src/structs_model/char_marker_object.rs:18-43 | handling a child a second time changes nothing |
| StructsModel.ChildrenIdempotent | src/structs_model/note_object.rs:14-37 | walking content a second time changes nothing |
| StructsModel.InParaIdempotent | src/structs_model/char_marker_object.rs:15-45 | a second `init_index` on a char, note or paragraph changes nothing |
| StructsModel.SidebarIdempotent | src/structs_model/sidebar_object.rs:13-45 | a second `init_index` on a sidebar changes nothing |
| StructsModel.CellsIdempotent | src/structs_model/row_object.rs:14-39 | walking cells a second time changes nothing |
| StructsModel.TableIdempotent | src/structs_model/table_object.rs:12-43 | a second `init_index` on a row or a table changes nothing |
| StructsModel.CharChildInitIndex | src/structs_model/char_marker_object.rs:18-43 | one pass of the char's loop yields the child as `CharChild` leaves it and adds exactly its contribution |
| StructsModel.ParaChildInitIndex | src/structs_model/note_object.rs:15-36 | one pass of the paragraph-style loop yields the child as `ParaChild` leaves it and adds exactly its contribution |
| StructsModel.CharChildrenInitIndex | src/structs_model/char_marker_object.rs:16-43 | the char's loop leaves the content as `CharChildren` and `tot_len` equal to its total contribution |
| StructsModel.ParaChildrenInitIndex | src/structs_model/para_marker_object.rs:18-41 | the paragraph-style loop leaves the content as `ParaChildren` and `tot_len` equal to its total contribution |
| StructsModel.CharInitIndex | src/structs_model/char_marker_object.rs:15-45 | the char's `init_index` leaves exactly `CharIndexed` |
| StructsModel.NoteInitIndex | src/structs_model/note_object.rs:12-39 | the note's `init_index` leaves exactly `NoteIndexed` |
| StructsModel.ParaInitIndex | src/structs_model/para_marker_object.rs:11-43 | the paragraph's `init_index`, early return for "b" included, leaves exactly `ParaIndexed` |
| StructsModel.SidebarInitIndex | src/structs_model/sidebar_object.rs:13-45 | the sidebar's `init_index` leaves exactly `SidebarIndexed` |
| StructsModel.ParasInitIndex | src/structs_model/sidebar_object.rs:18-43 | the sidebar's loop walks each paragraph and adds the contributions of all their content to the starting total |
| StructsModel.CellsInitIndex | src/structs_model/row_object.rs:14-39 | the loop over a row's cells leaves `CellsWalked` and the total contribution of their content |
| StructsModel.CellSeqInitIndex | src/structs_model/row_object.rs:14-39 | the same loop over the cells present |
| StructsModel.RowInitIndex | src/structs_model/row_object.rs:12-41 | the row's `init_index` leaves exactly `RowIndexed` |
| StructsModel.TableInitIndex | src/structs_model/table_object.rs:12-43 | the table's `init_index` leaves exactly `TableIndexed` |
| StructsModel.RowsInitIndex | src/structs_model/table_object.rs:14-41 | the table's loop walks each row and adds the contributions of all their cells |
| StructsModel.BookInitIndex | src/structs_model/book_object.rs:10-16 | the book's `init_index` leaves exactly `BookIndexed` |
| StructsModel.BookIdempotent | src/structs_model/book_object.rs:10-16 | a second `init_index` on a book changes nothing |
| StructsModel.NoContentCountsZero | src/structs_model/para_marker_object.rs:13-42 | without content nothing is summed: chars, notes, rows, tables, books and non-"b" paragraphs get 0, and a sidebar gets 1 for "b" and 0 otherwise |
| Strings.FirstRun | src/deserialize_usfm.rs:283-285 | the leftmost match of `\d+`: none exactly when no character is a digit, otherwise the maximal run of digits starting at the first digit |
| Strings.RemoveChar | src/deserialize_usfm.rs:207 | `replace("\\", "")` leaves no backslash and keeps every other character the same number of times; text without a backslash is unchanged |
| Strings.RemoveCharAppend | src/deserialize_usfm.rs:207 | removal works piece by piece, so the kept characters keep their order |
| Strings.TrimEnd | src/deserialize_usfm.rs:207 | trimming the end keeps a prefix, drops only white space, and leaves no white space at the end |
| Strings.TrimStart | src/deserialize_usfm.rs:207 | trimming the start keeps a suffix, drops only white space, and leaves no white space at the start |
| Strings.Trim | src/deserialize_usfm.rs:207 | `trim` keeps one contiguous slice with no white space at either end, and everything it drops around it is white space |
| Strings.Join | src/deserialize_usfm.rs:311 | joining no parts gives the empty text and joining one part gives that part |
| Strings.JoinAppend | src/aosj_string/aosj_string_model.rs:118-132 | joining one more part appends the separator and that part |
| Strings.LessTransitive | src/aosj_string/aosj_string_model.rs:50-113 | the key order of a `BTreeMap<String, _>` is transitive |
| Strings.LessTotal | src/aosj_string/aosj_string_model.rs:50-113 | any two distinct keys are ordered one way or the other |
| SortedMap.Get | src/deserialize_usfm.rs:216 | a key has a value exactly when it is one of the map's keys, and that value is stored with it |
| SortedMap.Insert | src/deserialize_usfm.rs:216 | `insert` makes the key map to the value, keeps every other key's value and adds only that key |
| Json.Get | src/serialize_to_usfm.rs:13 | `get` finds a member only in an object, and there it is the value stored under the key |
| Json.AsStr | src/serialize_to_usfm.rs:13 | `as_str` succeeds exactly on a string |
| Json.EscapeChar | src/serialize_to_usfm.rs:90 | in a printed string a quote or a backslash gains a backslash, a control character becomes a backslash escape of printable characters without a quote, and any other character is printed as itself |
| Json.EscapeCharRoundTrip | src/serialize_to_usfm.rs:90 | reading a printed escape back gives the character again |
| Json.RenderString | src/serialize_to_usfm.rs:90 | a string value printed by `{}` (`Render`) is a quote, its escaped text and a quote, every quote in between escaped; text without quotes, backslashes or control characters is printed as is |

## Left out

- File and console I/O. `deserialize_from_file` reads its input file (src/deserialize_usfm.rs:187-189); the model starts from the text's pieces. The USX reader opens its file and prints the document or the reader's error (src/deserialize_usx.rs:9-10, 106-111); the model takes the event sequence and returns what would be printed as an `Outcome`.
- The regular-expression engine. The pieces the combined expression cuts out and each category's search inside a piece are parameters of `UsfmLexer.LexingRegex`, so the patterns of src/deserialize_usfm.rs:57-147 are not transcribed. The classes `\d` and white space (for `trim`) are predicates given as parameters.
- JSON text and XML parsing. The USJ functions start from a parsed `Json.Value`, so the `from_str(..).expect("Invalid JSON string")` of src/serialize_to_usj.rs:8 is not modelled. The USX reader takes the events quick_xml would produce with `trim_text(true)`: element names with their attribute maps, text already unescaped, and `Text(None)` for text whose unescaping fails.
- Floating-point JSON numbers. `Json.Value` numbers are integers, so the printing of non-integer attribute values is not covered.
- Direct builder panics. Calling an `AosjModel` operation, or its `AosjStringModel` method, in a state where the Rust builder would panic (an `unwrap()` on an empty frame stack or a missing version) is excluded by its precondition rather than modelled as a result; only the readers, which test those preconditions first, turn them into `Failure(Panic)`.
- Panic messages. Every `unwrap()` failure is the one value `Failure(Panic)`. Only the two `expect` messages of src/deserialize_usj.rs:76 are kept, because they are distinct outcomes there.
- `DeserializeUsx.Drive`: running out of events is treated as end of file. The scratch buffer `buf` (src/deserialize_usx.rs:12, 115) belongs to the XML reader and is not modelled.
- The USX reader passes the XML element itself to `push_element` (src/deserialize_usx.rs:23, 53), which matches neither the builder's signature (src/aosj_string/aosj_string_model.rs:42) nor the interface's (src/model_traits.rs:8). The model pushes the element's name and attribute map.
- The `AosjModel` interface of src/model_traits.rs is not modelled as an interface. `AosjStringModel` is its only implementation, and every reader is modelled over it.
- src/serialize_to_usfm.rs:10 shadows the `BufWriter` with a `BufReader`, which cannot be written to. The model writes the intended append-only string. The `into_inner().expect(..)` and `from_utf8(..).expect(..)` of lines 51-54 cannot fail on such a string and are not modelled. The unused `output_file_path` parameter is dropped.
- `serialize_to_e_bible`'s `write_content` is never called by `serialize_to_e_bible`. It is modelled anyway and compared with the USFM one (`SerializeToEBible.MatchesUsfm`).
- src/serialize_to_usx.rs, src/deserialize_e_bible.rs, src/lib.rs, src/model.rs and src/parser.rs are not part of this model. Neither is the commented-out tree-sitter reader after line 379 of src/deserialize_usfm.rs.
- src/structs_model/cell_object.rs is not part of this model. A cell is modelled by its `content`, the only field the row and table walks read.
- `init_index` updates an object in place through `&mut self`. Each object owns its children outright, so the model returns the updated value instead. No aliasing exists to be lost.
- StructsModel.CharInitIndex: `tot_len` is an unbounded `nat`. Rust's `usize` addition would overflow beyond 2^64 - 1 characters, which the model does not capture.
- StructsModel.NoteInitIndex: same unbounded `tot_len`.
- StructsModel.ParaInitIndex: same unbounded `tot_len`.
- StructsModel.SidebarInitIndex: same unbounded `tot_len`.
- StructsModel.RowInitIndex: same unbounded `tot_len`.
- StructsModel.TableInitIndex: same unbounded `tot_len`.
- StructsModel.BookInitIndex: same unbounded `tot_len`.
