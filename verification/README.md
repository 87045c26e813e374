# Verified models of the libraries under `lib/`

This project models four of the libraries that the repository carries under `lib/` and proves
what they are used for.

* **JSON** (`lib/json/jsoncpp.cpp`): the reader, both writers, number and string conversion,
  the order on values and the batch allocator.
* **Catch** (`lib/catch.hpp`): the section trackers with the loop that reruns a test, the
  unordered-equality matcher and the line breaker `TextFlow::Column`.
* **HTTP** (`lib/http/request_parser.cpp`, `lib/http/request_parser.hpp`): the incremental
  request parser.
* **Bitset** (`lib/util/cbitset.h`): the word-packed bitset and its enumerators.

Code that updates objects or runs loops is modelled by classes and methods with the same fields
and loops (`Reader`, `FastWriter`, `StyledWriter`, `BatchAllocator`, `RunContext`, `Iterator`,
`Request`, `RequestParser`, `Bitset`). Each method is proved to compute a specification function
of its inputs or of the old state, and the theorems are proved about those functions.

`dafny verify dfyconfig.toml` checks everything.

## Main results

* *Language.* The reader succeeds exactly where a tree of a declarative, unambiguous grammar
  stands, takes exactly its text and yields what it denotes; a document is rejected exactly if no
  tree stands at its start (`JsonSound.ReadIff`, `JsonSound.RejectedIff`,
  `JsonUnique.Unambiguous`). The grammar names neither the lexer nor the reader, and each token
  kind is found exactly where its text stands (`JsonTokens.TokenIff`, `JsonTokens.ErrorIff`).
* *Round trip.* In every text that consists of the tokens of a real-free value with any white
  space between them, the reader reads that value back, up to the integer tag and to array holes,
  which become null values (`JsonRoundTrip.SpelledTextParses`, `JsonFaithful.ReadBackIsAlike`); it
  is unchanged exactly if there are none of either (`JsonFaithful.UnchangedIff`). Both writers produce such a text.
  `JsonRewrite.WriteReadWrite` runs the writer and reader objects one after the other:
  write-read-write gives the first text again, for the compact and for the styled writer.
* *Layout.* `StyledWriter`, with its lookahead, its collected child texts and its line breaks
  that depend on the last character written, writes exactly a layout that is a function of the
  value alone (`JsonLayout.StyledText`). Every line of it is indented by three columns for each
  bracket that is open there (`JsonIndent.StyledIndentation`).
* *Order.* `<` on real-free values is a strict total order, and which one it is
  (`JsonOrder.OrderIsStrictAndTotal`, `JsonOrderMeaning.LessIsBefore`).
* *Reader.* On every byte string the reader terminates, its cursor stays in the document, the node
  stack below the value being read is the same after a read as before it, whether it succeeds or
  fails, and exactly one error is recorded on failure.
* *Spans.* After a successful read every value's recorded span lies strictly inside its parent's,
  the spans of siblings are disjoint, and reading just the bytes of a span gives the value again.
* *Trackers.* For every finite tree of sections with distinct names the rerun loop terminates
  after `max(1, number of leaf sections)` cycles and runs each leaf once, in source order.
* *HTTP.* The parser answers `good` after exactly those prefixes that are sentences of a
  declarative grammar with folded headers, whatever way the bytes are cut into buffers, and the
  request it built is the meaning of the sentence. It is undecided exactly while the text can
  still be continued to a sentence, and answers `bad` exactly when it cannot and no prefix is one.
* *Columns.* For every column the source's assertions accept: lines fit, a line that is too long
  ends at the last boundary that fits and is hyphenated exactly if there is none, the pieces and the text
  ahead hold all that is not white space, and it is decided when the iteration ends.
* *Bitset.* Any run of updates refines the same updates of a set of natural numbers across growth,
  and the three enumerators list the same ascending members.

Some properties one might expect are false of the code. Each has a concrete input and an exact
condition here, and the model does what the code does:

* Not every document the reader accepts is JSON with comments: behind a comment any token
  separates members (`JsonStandard.SemicolonSeparates`), and a comma may end the members behind an
  empty name (`JsonStandard.TrailingComma`). `JsonStandard.ReadIsJson` says exactly when what was
  read is JSON. Numbers are any spelling the C library converts.
* `nextSetBits` shifts the first word but not its base, so a start inside a word gives numbers
  that are too small (`CBitset.UnalignedStartIsWrong`). `CBitset.ProducedRightIff` says exactly
  when the output of one call is right. The loop that resumes behind the number reported can
  list wrong members and never end (`BitsetBatches.SmallBufferLoops`);
  `BitsetBatches.LoopRightIff` says exactly for which members and buffer it is right.
* A `Column` can lose its text: when it starts with a newline, or when one column is left for the
  first line and no break follows the first character (`TextColumn.LeadingNewlineLosesText`,
  `TextColumn.SingleColumnLosesText`). `TextColumn.IterationKeepsTextIff` with
  `TextColumn.FirstPieceEmptyIff` says exactly when.
* A `Column` with a single column left behind its indent satisfies the source's assertions but
  can repeat a hyphen for ever (`TextColumn.SingleColumnLoops`). `TextColumn.IterationEndsIff`
  says exactly when the iteration ends.
* A version number that fits an `int` can overflow the `int` arithmetic of the HTTP parser, which
  adds the code of a digit before it subtracts that of '0'
  (`HttpVersion.LargestVersionOverflows`). `HttpVersion.RunInIntIff` says exactly on which texts
  it does not, `HttpVersion.SentenceInIntIff` on which sentences.

## Conventions

A `char` stands for one byte, so every theorem about strings covers all byte strings. A
`std::map` is the sequence of its entries in ascending key order. Integers are unbounded except
where the width decides the behaviour: `decodeNumber` accumulates in a 64-bit type
(`JsonNumber.uint64`), and values, limits and thresholds are the 64-bit and 32-bit ones. Trackers
are addressed by their path from the root instead of by pointer. The reader's stack holds the
values themselves: a slot is copied in when it is pushed and written back when it is popped.
`sscanf` is a function parameter (`scan`) about which nothing is assumed.

## Model

| member | source | states |
|---|---|---|
| `JsonValue.KeyLessIsStrictTotalOrder` | lib/json/jsoncpp.cpp:1400-1410 | the order of map keys is irreflexive, asymmetric, total and transitive, so a map is an ascending sequence |
| `JsonOrderMeaning.TextLessIsBefore` | lib/json/jsoncpp.cpp:1400-1404 | names are ordered by the first byte in which they differ, and a proper prefix comes first |
| `JsonOrderMeaning.KeyLessIsBefore` | lib/json/jsoncpp.cpp:1400-1404 | names are ordered that way and indices by `<` |
| `JsonValue.PutIsMapUpdate` | lib/json/jsoncpp.cpp:2027-2111 | storing under a key keeps the entries ascending, replaces exactly the entry with that key and keeps every other |
| `JsonNumber.DecimalFitsBuffer` | lib/json/jsoncpp.cpp:48-60 | every 64-bit number has at most twenty digits, so sign, digits and NUL fit the 25-byte buffer |
| `JsonNumber.UIntToString` | lib/json/jsoncpp.cpp:54-60 | the buffer filled downwards holds exactly the decimal digits followed by a NUL |
| `JsonNumber.IntToString` | lib/json/jsoncpp.cpp:2663-2674 | the text is the decimal numeral of every signed value above the minimum, written inside the buffer |
| `JsonNumber.LargestUIntToString` | lib/json/jsoncpp.cpp:2676-2682 | the text is the decimal numeral of every unsigned value |
| `JsonNumber.Accumulate` | lib/json/jsoncpp.cpp:578-594 | the 64-bit accumulator never wraps; the loop gives up exactly when the digits denote more than the limit, and else yields the number they denote |
| `JsonNumber.InspectDouble` | lib/json/jsoncpp.cpp:563-568 | the scan finds a floating-point spelling exactly when some character makes it one, a minus sign only behind the start |
| `JsonNumber.ComputeNumber` | lib/json/jsoncpp.cpp:563-602 | the scans and the loop compute the decoding of the spelling, whose meaning NumberMeaning gives |
| `JsonNumber.NumberMeaning` | lib/json/jsoncpp.cpp:563-602 | digits with an optional minus sign that denote n with -2^63 <= n <= 2147483647 decode to the signed n, those with 2147483647 < n <= 2^64-1 to the unsigned n, and every other spelling goes to the double conversion; the limits are written out |
| `JsonNumber.NumberRoundTrip` | lib/json/jsoncpp.cpp:2663-2682 | decoding inverts writing for every integer either type can hold, signed up to 2147483647 and unsigned above; the most negative one, whose negation the source leaves undefined in both directions, is taken with its two's-complement result |
| `JsonString.ComputeHexEscape` | lib/json/jsoncpp.cpp:735-761 | the loop computes the four-digit escape, whose meaning HexEscapeMeaning gives |
| `JsonLiteral.HexEscapeMeaning` | lib/json/jsoncpp.cpp:735-761 | the result is a number if and only if the four characters are hexadecimal digits, of either case, that denote it; an error is reported behind the first character that is no digit, or at once if fewer than four are left |
| `JsonString.CodePoint` | lib/json/jsoncpp.cpp:707-733 | every successful decode gives a code point of at most 0x10FFFF and moves forward inside the literal; errors stay inside it |
| `JsonString.ComputeCodePoint` | lib/json/jsoncpp.cpp:707-733 | one escape, or two for a high surrogate, with the source's four errors |
| `JsonString.ComputeString` | lib/json/jsoncpp.cpp:654-705 | the loop yields what the literal's characters stand for, or the first error and its position |
| `JsonLiteral.LiteralMeaning` | lib/json/jsoncpp.cpp:654-705 | a string token decodes to a text if and only if it is a sequence of single characters, two-character escapes, code escapes and surrogate pairs that denote the text piece by piece; it fails if and only if it is no such sequence |
| `JsonString.ValueToQuotedString` | lib/json/jsoncpp.cpp:2726-2774 | fast path and general loop both yield the literal with every character escaped as needed |
| `JsonLiteral.EscapeTable` | lib/json/jsoncpp.cpp:2726-2774 | which escape is written for each character, controls without a short one as four upper-case digits |
| `JsonString.NothingToEscape` | lib/json/jsoncpp.cpp:2729-2731 | the no-escape fast path agrees with the general escaping loop |
| `JsonString.ScanEscaped` | lib/json/jsoncpp.cpp:450-460 | scanning an escaped text stops exactly behind the closing quote |
| `JsonString.DecodeEscaped` | lib/json/jsoncpp.cpp:654-705 | decoding the escaped form of any NUL-free string gives the string back |
| `JsonString.QuoteRoundTrip` | lib/json/jsoncpp.cpp:2726-2774 | the literal of any NUL-free string, at any place of a document, is one string token and decodes to the string |
| `JsonUnicode.Utf8Inverts` | lib/json/jsoncpp.cpp:19-44 | the decoder of section 3 of RFC 3629 returns every scalar value from its bytes, whatever follows them |
| `JsonUnicode.Utf8Injective` | lib/json/jsoncpp.cpp:19-44 | different code points, surrogates included, have different bytes |
| `JsonUnicode.EscapeDecodes` | lib/json/jsoncpp.cpp:707-761 | the escape of every scalar value, a surrogate pair for the supplementary ones, decodes to it |
| `JsonUnicode.EscapedTextRoundTrip` | lib/json/jsoncpp.cpp:654-761 | a literal written all in escapes decodes to UTF-8 from which the code points come back |
| `JsonReader.Reader.SkipSpaces` | lib/json/jsoncpp.cpp:368-376 | the cursor moves to the first character that is not white space |
| `JsonReader.Reader.Match` | lib/json/jsoncpp.cpp:378-387 | the cursor moves past the pattern exactly when the pattern stands there, and stays put otherwise |
| `JsonReader.Reader.ReadComment` | lib/json/jsoncpp.cpp:389-439 | both comment styles, and the failures, leave the cursor where the specification says, inside the document |
| `JsonReader.Reader.ReadNumber` | lib/json/jsoncpp.cpp:441-448 | the cursor moves past the longest run of number characters |
| `JsonReader.Reader.ReadString` | lib/json/jsoncpp.cpp:450-460 | the cursor moves past the first quote that is not escaped; failure means the end of the document |
| `JsonReader.Reader.ReadToken` | lib/json/jsoncpp.cpp:297-366 | the token at the cursor, which TokenIff and ErrorIff describe, and the cursor behind it |
| `JsonLexer.TokenAt` | lib/json/jsoncpp.cpp:297-366 | every token but the end takes at least one character and ends inside the document; string tokens are quoted and number tokens hold number characters only |
| `JsonTokens.TokenIff` | lib/json/jsoncpp.cpp:297-366 | a token of any kind but the error is found if and only if its text stands there: one fixed character or word, a closed literal, the longest run of number characters, a closed comment, or the end |
| `JsonTokens.ErrorIff` | lib/json/jsoncpp.cpp:297-366 | the error token is found if and only if no text of any other kind stands there, and where it ends |
| `JsonTokens.CommentIff` | lib/json/jsoncpp.cpp:389-439 | a comment extends to the first `*/` behind its opening, or to the first line break or the end of the document |
| `JsonTokens.LiteralIff` | lib/json/jsoncpp.cpp:450-460 | a string token extends to the first quote that no backslash escapes |
| `JsonTokens.NumberIff` | lib/json/jsoncpp.cpp:441-448 | a number token extends to the first character that cannot be part of a number |
| `JsonReader.Reader.SkipCommentTokens` | lib/json/jsoncpp.cpp:280-288 | the first token that is no comment; the loop terminates |
| `JsonReader.Reader.RecoverFromError` | lib/json/jsoncpp.cpp:773-784 | recovery terminates behind the wanted token or at the end and leaves the recorded errors as they were |
| `JsonErrors.RecoveryStops` | lib/json/jsoncpp.cpp:773-784 | recovery ends behind the first of the tokens that follow which is of the wanted kind or the end |
| `JsonReader.Reader.ReadValue` | lib/json/jsoncpp.cpp:211-278 | the outcome of the specification: on success the top of the stack is the value and no error is added, on failure exactly one error is added; the stack below is unchanged either way |
| `JsonReader.Reader.ReadMember` | lib/json/jsoncpp.cpp:467-512 | one turn of the member loop makes progress, ends as the specification says, or leaves the rest of the object to be read |
| `JsonReader.Reader.ReadObject` | lib/json/jsoncpp.cpp:462-515 | the loop terminates with the object specified, or with one error, and restores the stack |
| `JsonReader.Reader.ReadArray` | lib/json/jsoncpp.cpp:517-551 | the loop terminates with the array specified, or with one error, and restores the stack |
| `JsonReader.Reader.Parse` | lib/json/jsoncpp.cpp:172-209 | terminates on every text with the cursor inside it and one node on the stack; yields the root value and no error, or one error; text after the root value is not rejected |
| `JsonComplete.ValueComplete` | lib/json/jsoncpp.cpp:211-278 | wherever the text of a tree of the grammar stands, the reader takes exactly that text and yields what the tree denotes |
| `JsonSound.ValueSound` | lib/json/jsoncpp.cpp:211-278 | whatever the reader takes is the text of a tree of the grammar that denotes the value |
| `JsonSound.ReadIff` | lib/json/jsoncpp.cpp:211-278 | the reader succeeds with a value and an end if and only if a tree with that meaning stands up to that end |
| `JsonSound.RejectedIff` | lib/json/jsoncpp.cpp:172-278 | a document is rejected if and only if no tree of the grammar stands at its start |
| `JsonUnique.Unambiguous` | lib/json/jsoncpp.cpp:211-278 | at most one tree stands at a place of a document |
| `JsonStandard.StandardIff` | lib/json/jsoncpp.cpp:467-512 | a tree of the grammar has commas for separators, and none before a closing brace, if and only if a comma separates members wherever a comment precedes the separator and no separator ends the members behind an empty name |
| `JsonStandard.StrippedIsJson` | lib/json/jsoncpp.cpp:211-278 | such a tree without its comments is a tree without comments that denotes the same |
| `JsonStandard.ReadIsJson` | lib/json/jsoncpp.cpp:211-278 | what the reader takes is JSON with comments if and only if its tree meets that condition, and without the comments it then denotes the same value |
| `JsonStandard.SemicolonSeparates` | lib/json/jsoncpp.cpp:500-512 | `{"a":1/**/;"b":2}` is read as an object of two members and is no JSON |
| `JsonStandard.TrailingComma` | lib/json/jsoncpp.cpp:467-474 | `{"":1,}` is read as an object of one member and is no JSON |
| `JsonStandard.SemicolonInArrayFails` | lib/json/jsoncpp.cpp:536-545 | in an array a semicolon behind a digit is an error |
| `JsonErrors.ValueFails` | lib/json/jsoncpp.cpp:211-278 | the token a recorded error names stands in the document and is wrong in the way the error says |
| `JsonText.SpellsAppend` | lib/json/jsoncpp.cpp:2797-2843 | texts that spell token sequences can be appended |
| `JsonText.TokensProper` | lib/json/jsoncpp.cpp:2797-2843 | in the tokens of a value no two data tokens stand side by side, so none run together when written without spaces |
| `JsonText.SpelledTokensLex` | lib/json/jsoncpp.cpp:297-366 | in any text that spells such tokens the reader finds exactly those tokens and then the end |
| `JsonWriter.FastWriter.Write` | lib/json/jsoncpp.cpp:2789-2795 | the text is the tokens of the value one after the other, and a newline unless it is omitted |
| `JsonWriter.FastWriter.WriteValue` | lib/json/jsoncpp.cpp:2797-2843 | appends exactly the tokens of the value, holes written as null and members in key order |
| `JsonWriter.RenderedSpells` | lib/json/jsoncpp.cpp:2797-2843 | the compact text, with or without the YAML space, spells the tokens it was made from |
| `JsonIndent.CompactBlanks` | lib/json/jsoncpp.cpp:2797-2843 | outside literals, told by a scan of the text alone, there is white space exactly behind each colon, and only in the YAML-compatible form |
| `JsonStyledWriter.StyledWriter.Write` | lib/json/jsoncpp.cpp:2849-2858 | the text is exactly the layout of the value, and a newline |
| `JsonStyledWriter.StyledWriter.WriteValue` | lib/json/jsoncpp.cpp:2860-2910 | while children are collected exactly the compact text of the leaf is appended to them and the document left alone; otherwise the document grows by exactly the layout of the value; the indentation is restored |
| `JsonStyledWriter.StyledWriter.WriteMembers` | lib/json/jsoncpp.cpp:2888-2906 | the members go on lines of their own, three columns deeper, between braces |
| `JsonStyledWriter.StyledWriter.WriteArrayValue` | lib/json/jsoncpp.cpp:2912-2953 | the document grows by exactly the layout of the array, the one the lookahead decided on |
| `JsonStyledWriter.StyledWriter.WriteLines` | lib/json/jsoncpp.cpp:2917-2940 | the elements go on lines of their own, from collected texts or not, three columns deeper, between brackets |
| `JsonStyledWriter.StyledWriter.IsMultilineArray` | lib/json/jsoncpp.cpp:2955-2978 | the lookahead leaves document and indentation alone; several lines are chosen exactly when there are many elements, one is a container with entries, or the one-line text would reach the right margin; the texts collected are those of all elements, or none |
| `JsonStyledWriter.OneLineLength` | lib/json/jsoncpp.cpp:2969-2975 | the length the lookahead adds up is the length of the one-line text |
| `JsonStyledWriter.StyledWriter.WriteOneLine` | lib/json/jsoncpp.cpp:2941-2951 | appends exactly the one-line text |
| `JsonStyledWriter.StyledWriter.PushValue` | lib/json/jsoncpp.cpp:2980-2985 | the text goes to the children or to the document, never to both |
| `JsonStyledWriter.StyledWriter.WriteIndent` | lib/json/jsoncpp.cpp:2987-2996 | nothing behind a blank, the indentation at the start and behind a newline, else a line break and the indentation |
| `JsonStyledWriter.OneLineIff` | lib/json/jsoncpp.cpp:2955-2978 | an array of leaves is written without a line break if and only if it has at most 24 elements whose texts plus two characters each take at most 71 |
| `JsonIndent.StyledIndentation` | lib/json/jsoncpp.cpp:2860-3008 | every line of styled text starts outside literals with three blanks for each bracket that a scan of the text finds open at its first visible character, and in the end no bracket is open |
| `JsonLayout.LayoutEndsVisibly` | lib/json/jsoncpp.cpp:2987-2996 | laid out text ends in a visible character, so that the next indented text starts a new line |
| `JsonLayout.LayoutSpells` | lib/json/jsoncpp.cpp:2860-2953 | whatever layout is chosen, the text spells the tokens of the value |
| `JsonLayout.StyledTextSpells` | lib/json/jsoncpp.cpp:2849-2858 | the styled text spells the tokens of the value |
| `JsonRoundTrip.ValueReads` | lib/json/jsoncpp.cpp:211-278 | wherever the tokens of a value are found in a document, a read yields the value and stops behind the last of them |
| `JsonRoundTrip.SpelledTextParses` | lib/json/jsoncpp.cpp:172-278 | every text that spells a value reads back as it, integers retagged by magnitude and array holes filled |
| `JsonRoundTrip.ReadBackSameTokens` | lib/json/jsoncpp.cpp:2797-2843 | what is read back is writable again and has the same tokens |
| `JsonRoundTrip.FastWriterRoundTrip` | lib/json/jsoncpp.cpp:2789-2843 | reading the compact text yields the value, and writing that again yields the same text |
| `JsonRoundTrip.WritersAgree` | lib/json/jsoncpp.cpp:2860-3008 | the reader finds the same tokens and then the end in both writers' texts, and reads the value back from both |
| `JsonFaithful.ReadBackIsAlike` | lib/json/jsoncpp.cpp:2797-2843 | what is read back has every entry of every array under its own index and null in the holes, the same members in the same order, and integers tagged by size; nothing is lost, moved or added |
| `JsonFaithful.UnchangedIff` | lib/json/jsoncpp.cpp:2797-2843 | the round trip is the identity if and only if no array has a hole and every integer has the tag its size gives it |
| `JsonRewrite.PlainSameTokens` | lib/json/jsoncpp.cpp:2797-2843 | the spans a value carries do not influence what is written |
| `JsonRewrite.RereadLooksAlike` | lib/json/jsoncpp.cpp:2860-2978 | a value that was read back is written by both writers exactly as the original is |
| `JsonRewrite.WriteReadWrite` | lib/json/jsoncpp.cpp:2789-2910 | the writer and reader objects run in sequence: both texts read back as the value, and what was read is written as the same compact and the same styled text |
| `JsonWindow.NextTokenInWindow` | lib/json/jsoncpp.cpp:280-366 | a token that ends inside a part of the document is found the same when only that part is read |
| `JsonWindow.BodyInWindow` | lib/json/jsoncpp.cpp:654-705 | a literal decodes the same, errors included, in a part of the document |
| `JsonSpans.ValueInWindow` | lib/json/jsoncpp.cpp:211-278 | a value read inside a part of the document is the same value, its spans moved, when only that part is read |
| `JsonSpans.ReadIsWellSpanned` | lib/json/jsoncpp.cpp:462-561 | in every value read, spans nest strictly, siblings' spans are disjoint, and the bytes of each span alone read as that value |
| `JsonOrder.OrderIsStrictAndTotal` | lib/json/jsoncpp.cpp:1619-1708 | on real-free values `<` is irreflexive and transitive, exactly one of `<`, `==`, `>` holds, `compare` is antisymmetric and zero exactly on `==`, which holds exactly for equal trees |
| `JsonOrderMeaning.LessIsBefore` | lib/json/jsoncpp.cpp:1619-1664 | `<` and `compare` order real-free values by type, integers by their numbers, false before true, strings by the first byte that differs, containers by the number of entries and then by the first entry that differs |
| `JsonOrder.EqualValuesCompareAlike` | lib/json/jsoncpp.cpp:1627-1664 | equal values compare alike with every third value |
| `BatchAllocation.BatchAllocator.constructor` | lib/json/jsoncpp.cpp:949-956 | starts with the empty dummy batch, nothing live, nothing free |
| `BatchAllocation.BatchAllocator.FindBatch` | lib/json/jsoncpp.cpp:973-984 | ends with a batch that is not used up; all other batches are full, so the search finds none of them |
| `BatchAllocation.BatchAllocator.Allocate` | lib/json/jsoncpp.cpp:966-988 | hands out a block that was not live, keeps the invariant, and raises the peak exactly to the largest number of live blocks |
| `BatchAllocation.BatchAllocator.Release` | lib/json/jsoncpp.cpp:990-994 | puts a live block at the head of the free list and keeps the invariant |
| `BatchAllocation.BatchAllocator.Guarantees` | lib/json/jsoncpp.cpp:946-1022 | between any two operations live blocks are pairwise apart and inside a batch, blocks carved are live plus free and equal the peak, and the batches are the ceiling of the peak over the blocks per batch |
| `TrackerRun.RunContext.OpenChild` | lib/catch.hpp:11223-11229 | marks trackers upwards until one that is executing its children already |
| `TrackerRun.RunContext.Open` | lib/catch.hpp:11234-11239 | the tracker executes and is current, its ancestors execute their children |
| `TrackerRun.RunContext.Acquire` | lib/catch.hpp:11313-11334 | finds or adds the child; opens it exactly when the cycle is not complete and the child is not; opening marks all ancestors that are not marked |
| `TrackerRun.AcquiredSimply` | lib/catch.hpp:11223-11239 | when all ancestors are marked already, acquiring changes only the current tracker and its child |
| `TrackerRun.RunContext.CloseCurrent` | lib/catch.hpp:11246-11267 | completes a tracker that ran without children or whose last child is complete, moves to the parent and completes the cycle |
| `TrackerRun.RunContext.Close` | lib/catch.hpp:11241-11268 | closes the open trackers from the current one up to this one, each by what its children have become, and moves to the parent |
| `TrackerRun.RunContext.SectionStarted` | lib/catch.hpp:9739-9752 | a section is entered exactly when its tracker is open afterwards, and then it becomes the last active one |
| `TrackerRun.RunContext.SectionEnded` | lib/catch.hpp:9773-9785 | closes the last active section and pops it; does nothing without one |
| `TrackerRun.MeetsWhenDone` | lib/catch.hpp:11313-11334 | after the leaf of the cycle has run, further sections get trackers but are not entered |
| `TrackerRun.MeetsBefore` | lib/catch.hpp:11313-11334 | before it, a section is passed over when all its leaves have run, and is else the one that holds the next leaf |
| `TrackerRun.CloseBody` | lib/catch.hpp:11241-11268 | closing a section at the end of its body leaves it with exactly one more leaf run |
| `TrackerRun.RunContext.RunBody` | lib/catch.hpp:9878-9924 | one execution of a section's body enters exactly the sections on the way to the next leaf |
| `TrackerRun.RunContext.OpenCase` | lib/catch.hpp:9679-9680 | a cycle starts with the test case's tracker found or made, and open |
| `TrackerRun.RunContext.RunCycle` | lib/catch.hpp:9679-9681 | one cycle runs exactly the next leaf and leaves the tree as after that many leaves |
| `TrackerRun.RunContext.RunTest` | lib/catch.hpp:9663-9682 | the loop ends after max(1, leaf sections) cycles; each cycle runs one leaf, every leaf is run by one cycle, and the order is that of the source |
| `TrackerSchedule.RoutesAscend` | lib/catch.hpp:9678-9682 | later cycles run leaves that stand later in the source |
| `TrackerSchedule.LeafHasRoute` | lib/catch.hpp:9678-9682 | every leaf is run by some cycle |
| `UnorderedEquals.Count` | lib/catch.hpp:2963-2972 | the multiplicity of an element in a range |
| `UnorderedEquals.Contains` | lib/catch.hpp:2973-2981 | membership in a range |
| `UnorderedEquals.SkipPrefix` | lib/catch.hpp:3062-3067 | a common prefix can be left out of the comparison |
| `UnorderedEquals.MatchRest` | lib/catch.hpp:3069-3079 | checking first occurrences on one side decides multiset equality of the rest |
| `UnorderedEquals.Match` | lib/catch.hpp:3056-3080 | true if and only if the two vectors are equal as multisets |
| `TextColumn.Column.CutAt` | lib/catch.hpp:6166-6191 | a piece stays on its line, fits the room with its hyphen, and is not empty when the line is not and two columns are left |
| `TextColumn.CutAtLastBreak` | lib/catch.hpp:6166-6191 | a line that does not fit gets a hyphen if and only if no boundary in the room has a solid character before it; else the piece ends before the last such boundary, trailing white space removed |
| `TextColumn.BoundaryIff` | lib/catch.hpp:6156-6164 | the boundaries, with the breaking characters written out |
| `TextColumn.Iterator.CalcLength` | lib/catch.hpp:6166-6191 | the loops compute the piece that CutAtLastBreak describes |
| `TextColumn.Iterator.constructor` | lib/catch.hpp:6209-6215 | for every column the source's assertions accept: the iterator stands at the start, or at the end if the first piece is empty |
| `TextColumn.Iterator.Line` | lib/catch.hpp:6217-6221 | indent, piece and hyphen of the position it stands at |
| `TextColumn.LineShows` | lib/catch.hpp:6217-6221 | the line is the blanks of its indentation, the initial one for the first line, then the piece character by character, then the hyphen if there is one |
| `TextColumn.Iterator.Advance` | lib/catch.hpp:6223-6238 | moves behind one newline, or behind all white space, or to the end |
| `TextColumn.NextIsBehind` | lib/catch.hpp:6223-6238 | the next piece starts behind one newline, or else at the first solid character behind the piece |
| `TextColumn.SetText` | lib/catch.hpp:6139-6254 | on every column whose iteration ends, iterating from begin to end yields the lines |
| `TextColumn.TakeLines` | lib/catch.hpp:6139-6254 | on every column the source's assertions accept, the iterator yields the first lines, and has ended exactly if the iteration ends within that many steps |
| `TextColumn.LinesFit` | lib/catch.hpp:6139-6254 | every line of any number of steps is at most the width and holds no newline |
| `TextColumn.PiecesKeepText` | lib/catch.hpp:6166-6238 | the pieces of any number of steps and the text still ahead hold all characters that are not white space, in order |
| `TextColumn.IterationEndsIff` | lib/catch.hpp:6209-6238 | the iteration ends if and only if the first piece is empty, two columns are left for the other lines, or a break may follow every solid character behind the first piece; then it ends within as many steps as there are characters |
| `TextColumn.FirstPieceEmptyIff` | lib/catch.hpp:6166-6215 | the first piece is empty if and only if the text is, starts with a newline, or has one column and a blank or unbreakable first character |
| `TextColumn.IterationKeepsTextIff` | lib/catch.hpp:6209-6238 | an iteration that ends keeps the text if and only if its first piece is not empty or there is nothing to keep; one that does not end never gives all of the text |
| `TextColumn.LeadingNewlineLosesText` | lib/catch.hpp:6209-6215 | a newline followed by a letter comes out empty |
| `TextColumn.SingleColumnLosesText` | lib/catch.hpp:6209-6215 | so does a word of two letters in a single column |
| `TextColumn.SingleColumnLoops` | lib/catch.hpp:6223-6238 | five letters with three columns for the first line and one for the others: the second line is repeated for ever |
| `HttpParser.Step` | lib/http/request_parser.cpp:20-277 | the header list is not empty in any state that uses its last element |
| `HttpGrammar.TokenCharacters` | lib/http/request_parser.cpp:279-319 | the characters of a token of section 2.2 of RFC 1945 are the letters, the digits and fifteen listed marks |
| `HttpGrammar.ControlCharacters` | lib/http/request_parser.cpp:285-289 | the controls are the codes below 32, and 127 |
| `HttpParser.RequestParser.Consume` | lib/http/request_parser.cpp:20-277 | new state, new request and result are those of the transition function; the last header is only used when there is one |
| `HttpParser.RequestParser.ParseBuffer` | lib/http/request_parser.hpp:21-32 | the loop runs the transition function over the buffer and stops behind the first character that decides |
| `HttpParser.RunInTwo` | lib/http/request_parser.hpp:21-32 | a run over two buffers is the run over the first, continued over the second if still undecided |
| `HttpParser.ChunkingDoesNotMatter` | lib/http/request_parser.hpp:21-32 | state, request, result and characters consumed are the same for every way of cutting the bytes into buffers |
| `HttpParser.RequestParser.ParseBuffers` | lib/http/connection.cpp:46-64 | feeding the parser buffer after buffer, while the answer is open, has the result of one run over all bytes |
| `HttpGrammar.SentenceAccepted` | lib/http/request_parser.cpp:20-277 | every sentence of the grammar is accepted at its last character, with its meaning as the request, whatever follows |
| `HttpSoundness.StepKeepsTrack` | lib/http/request_parser.cpp:20-277 | every step keeps a partial sentence whose text is what was consumed and whose meaning is the request so far |
| `HttpSoundness.AcceptedIsSentence` | lib/http/request_parser.cpp:20-277 | whatever the parser accepts is a sentence, and the request its meaning |
| `HttpSoundness.GoodExactlyOnSentences` | lib/http/request_parser.cpp:20-277 | the result is good after a prefix if and only if the prefix is a sentence, and then the request is the meaning of each sentence with that text |
| `HttpSoundness.CanFinish` | lib/http/request_parser.cpp:20-277 | from every state some text leads to the answer good |
| `HttpSoundness.OpenExactlyOnProperPrefixes` | lib/http/request_parser.cpp:20-277 | the answer is open if and only if some longer text is a sentence |
| `HttpSoundness.BadExactlyOffSentences` | lib/http/request_parser.cpp:20-277 | the answer is bad if and only if no prefix of the text is a sentence and no continuation of it is |
| `HttpPrint.PrintRoundTrip` | lib/http/request_parser.cpp:25-273 | printing any well-formed request and parsing it gives the request back; in the source's int arithmetic, too, if and only if both version numbers plus 48 fit an int |
| `HttpVersion.RunInIntIff` | lib/http/request_parser.cpp:117-169 | on every text, all values the parser computes for version digits are ints if and only if the version numbers reached, plus the code of '0', are |
| `HttpVersion.SentenceInIntIff` | lib/http/request_parser.cpp:117-169 | on a sentence, if and only if both its version numbers plus 48 fit an int |
| `HttpVersion.LargestVersionOverflows` | lib/http/request_parser.cpp:117-169 | version 2147483647.0 fits an int and overflows |
| `HttpPrint.FoldingIsTransparent` | lib/http/request_parser.cpp:202-266 | inserting a line break and blanks into a header value before a non-blank character changes neither the answer nor the request |
| `CBitset.Bitset.Grow` | lib/util/cbitset.h:51-70 | growth keeps the members, doubles the capacity when it must, and copies exactly the old capacity then; the copies of all growth never exceed the capacity |
| `CBitset.Bitset.Set` | lib/util/cbitset.h:78-90 | adds exactly that member, growing when needed |
| `CBitset.Bitset.Unset` | lib/util/cbitset.h:92-101 | removes exactly that member |
| `CBitset.Bitset.Get` | lib/util/cbitset.h:103-112 | membership |
| `CBitset.Bitset.Apply` | lib/util/cbitset.h:78-112 | any run of updates has the effect of the same insertions and deletions on a set |
| `CBitset.IntersectionCount` | lib/util/cbitset.h:126-136 | the number of common members |
| `CBitset.Bitset.NextSetBit` | lib/util/cbitset.h:151-178 | the least member not below the argument, or that there is none and the argument stays |
| `CBitset.Bitset.EnumerateByNext` | lib/util/cbitset.h:244-253 | repeated `nextSetBit` lists all members |
| `CBitset.Bitset.ForEach` | lib/util/cbitset.h:224-242 | the callback sees the ascending members up to the first it rejects; the result says whether it rejected none |
| `CBitset.Bitset.NextSetBits` | lib/util/cbitset.h:180-220 | the buffer gets the longest prefix that fits of what the words give from the start on, and the last of it is reported |
| `CBitset.ListIsAscendingMembers` | lib/util/cbitset.h:224-242 | the list of the words' bits is the members, each once, ascending |
| `CBitset.MembersFromIsMembers` | lib/util/cbitset.h:180-220 | the reference list from a start is exactly the members from it on, ascending |
| `CBitset.ProducedIsOff` | lib/util/cbitset.h:191-205 | what is written for the first word is too small by the start's offset in the word, all else is right |
| `CBitset.ProducedRightIff` | lib/util/cbitset.h:191-205 | the output is the members from the start on if and only if the start is word-aligned or its word has no member left |
| `CBitset.UnalignedStartIsWrong` | lib/util/cbitset.h:191-205 | from bit 1 of a word with bits 1 and 2 set, 0 and 1 are written |
| `BitsetBatches.LoopRightIff` | lib/util/cbitset.h:180-220 | resuming behind the number reported lists members in order for ever, and all in the end, if and only if every filled buffer is followed by a member of another word |
| `BitsetBatches.EnumerateInBatches` | lib/util/cbitset.h:180-220 | that loop on the object then terminates and lists all members |
| `BitsetBatches.SmallBufferLoops` | lib/util/cbitset.h:180-220 | members 1 and 2 with a buffer of one: the second call reports 0, and the loop never ends |
| `CBitset.EnumerateThreeWays` | lib/util/cbitset.h:151-253 | the three enumerators list the same ascending members; a smaller buffer gets exactly the prefix |
| `CBitset.MembersSize` | lib/util/cbitset.h:126-136 | the number of members is the number of set bits |

## Left out

- Comments of JSON documents are read past but not collected, stored or written (lib/json/jsoncpp.cpp:400-421).
- The reader features `strictRoot_`, `allowNumericKeys_` and `allowDroppedNullPlaceholders_`, and the writer option `dropNullPlaceholders`: the default settings are modelled.
- The text of real numbers: `scan` stands for `sscanf`, and values with reals are outside the round trip.
- Null string pointers in written values, the most negative 64-bit integer (its negation is undefined in the source), member names and strings with a NUL, and array indices from 2^31-1 on: `JsonValue.Writable` excludes them.
- The tree left behind by a failed parse: only the error, the cursor and the stack are specified.
- `StyledStreamWriter`, `Path`, `Value::resize` and the accessors and conversions of `Value`: they would add easy members.
- JsonNumber.IntToString: not for the most negative value, because the source negates it in place.
- TrackerRun.RunContext.RunTest: for bodies that do not throw, without section filters, generators or abort, which the trackers handle by other states.
- TrackerRun.RunContext.Close: for open trackers on the way from the current one; the internal errors for others are not modelled.
- Reporters, assertion counts and output redirection in `RunContext`.
- BatchAllocation.BatchAllocator.constructor: for pages whose number of objects is a multiple of those of a block, without which the bump pointer would step over the end of the page.
- TextColumn.SetText: for columns whose iteration ends, since the source does not return on others; `Columns` and `Spacer` are not modelled.
- HttpParser.RequestParser.Consume: version numbers are unbounded; RunInIntIff says on which texts the source's int arithmetic does not overflow.
- HttpParser.RequestParser.ParseBuffers: without the limit on the bytes received.
- JsonNumber.NumberRoundTrip: assumes two's complement for the negation of the most negative integer, which the source leaves undefined.
- Sockets, replies, routes, URL decoding and the maximum request size of the HTTP server.
- CBitset.Bitset.Grow: allocation succeeds and sizes do not overflow `size_t`.
- Bitset functions that are declared without a body in lib/util/cbitset.h.
- Memory ownership (`malloc`, `free`, duplication policies of `CZString`).
- lib/clara.hpp, lib/sqlite, lib/util/crc16.h and the ledger code under src/.
