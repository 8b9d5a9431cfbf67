# Text resolution, framing and tree cursors of the terminal: a Dafny model

The repository is a terminal emulator. Four of its crates hold algorithms whose correctness
depends on invariants that no single function shows. This project models them and proves what
they promise.

* **bidi** implements the Unicode Bidirectional Algorithm (UAX #9). `BidiContext` (module
  `Context`) is modelled as a class whose methods rewrite its fields in place, pass by pass, as
  the source does. Every rule is also given as a definition that looks only at the text before
  the rule (`Explicit`, `Runs`, `Weak`, `Brackets`, `Neutral`, `Whitespace`, `Reorder`), every
  method is proved equal to its rule, and the promises of UAX #9 are proved about the rules
  (`ExplicitFacts`, `IsolateLevels`, `RunFacts`, `SequenceSides`, `IsolatingRuns`, `BD13`, `WeakFacts`,
  `IsolateMarks`, `BracketFacts`, `PairFacts`, `NeutralFacts`, `Resolution`, `Outcome`, `ResultLaws`,
  `LetterLaws`, `LeastBetween`, `Lines`, `ReorderedLines`). `Embeddings` has the matching of embeddings (BD11) and the
  initiators that are open at a position, and `OpenEntries`, `OpenStacks` and `OpenLaws` show that these
  alone decide what X1-X8 make of a character. `Counterexamples` and `OverriddenMarks`, with `Stillness`,
  have paragraphs on which promises fail. `Isolates` has the paragraph level and the matching of isolates (BD9),
  `LevelStack` the directional status stack, `Chains`, `Passes` and `InPlace` what one rule does
  to all sequences and how a pass in place relates to a simultaneous definition.
* **base91** is a streaming codec with a queue of bits on either side (`Bits`, `Base91`,
  `Base91Facts`, `Base91Digits`).
* **codec** frames messages, decodes them from a buffer that fills up while bytes arrive
  (`Frames`), and takes hyperlinks out of lines and puts them back (`Hyperlinks`).
* **bintree** is a binary tree with a zipper cursor (`BinTree`, `TreeEdits`).

`Options` has the type of values that may be missing.

`dafny verify dfyconfig.toml` checks the whole project.

## How the source is read

* A `Vec` field is a `seq` field that methods reassign, a fixed array is an `array`, and a
  mutable local vector is a local `seq`. A `Level` is an integer in the range of `i8`; every
  assignment to one is checked to fit. Rust's `%` is `RemTwo`, so that -1 is not odd. Counters
  of overflowing embeddings and isolates are unbounded.
* The Unicode tables are parameters: a character of a paragraph comes with its class and its
  bracket entry (`ParaChar`).
* `resolve` requires of the paragraph only that the pop loop of X6a does not run off the stack
  (`Completes`), which is where the source panics. `ExplicitFacts.CompletesIff` says when that happens.
* The removed characters of X9 keep their class in the text; a removed character is one whose
  level is -1.
* The reader of the mux protocol is a list of events (some bytes, would block, failed, and the
  end when the list is used up); a message is opaque bytes with a flag.
* A link object is an object of class `Link`; what it says is a string.

## Where the source differs from its documentation or from UAX #9

* The directional status stack has 125 slots (bidi/src/level_stack.rs:35-39), section 3.3.2 of
  UAX #9 asks for 127. `TracksUaxIffNoDroppedPush` is the exact condition for conforming all the same,
  `CompletesIff` that for getting through at all, and `DroppedIsolatePanics` a text that meets neither.
* The 64th open bracket ends N0 for the whole paragraph from that sequence on
  (bidi/src/lib.rs:822-825), although the comment above it says only that sequence is affected.
  `ResolvePairedBrackets` states what the code does, `GivingUpIsSkippingIff` when that is what the comment
  says, and `OverflowSilencesLaterPairs` has a paragraph on which it is not.
* W1 gives a mark after an isolate initiator or a PDI the class of that character
  (bidi/src/lib.rs:527-538), UAX #9 gives it ON. `W1AgreesIff` is the exact condition for agreeing, and
  `ResultFromEitherW1` says that the result of `resolve` is the same in any case.
* An override is to decide the direction of every character under it. The marks that follow a bracket take
  its class by their original class (bidi/src/lib.rs:878-944), so that one under an override can take it too.
  `OverriddenMarkInResult` is the exact condition for keeping the direction of the override, and
  `OverriddenMarkTurns` a text that does not meet it.
* `lowest_odd_level` starts at 126, which is also the highest level there is
  (bidi/src/lib.rs:345). `ConformsToL2` is the exact condition, and `NeighboursAt126Occur` a paragraph that
  does not meet it.
* `reordered_runs` indexes the levels of the line with positions of the paragraph
  (bidi/src/lib.rs:243-247). `IndexedInRangeIff` and `RightLevelsIff` are the exact conditions
  for not panicking and for the right levels; in effect it is for lines that start a paragraph.
* The comment at bidi/src/lib.rs:80-84 doubts whether removed characters can be inside a run.
  They cannot (`RunsPartition`), and `removed_by_x9` is always empty.
* A run also ends after an initiator whose isolate overflowed (bidi/src/lib.rs:1822-1838), and an initiator
  or PDI that an override has turned into L or R no longer counts as one when sequences are joined
  (bidi/src/lib.rs:1614-1639). Both can leave BD13: `SourceFollowsBD13` is the exact condition,
  `OverrideLeavesBD13` and `OverflowLeavesBD13` are texts that do not meet it.
* The comment at codec/src/lib.rs:970-976 promises to keep the identity of links. It is kept
  within a streak of one line only (`IdentityIsPerStreak`).
* `postorder_next` is not a postorder: it is the preorder of the mirrored tree
  (`BackStepFollows`). It visits every node once all the same (`BackTraversalVisitsAllOnce`), and is a
  postorder only for a tree without nodes (`PostorderOnlyWithoutNodes`).

## Model

| member | source | states |
|---|---|---|
| `BidiTypes.LeastGreaterIsLeast` | bidi/src/level.rs:33-57 | `least_greater_even` and `least_greater_odd` give the least level of that parity above the given one, and None exactly when that would pass 125 |
| `Isolates.ParagraphLevel` | bidi/src/lib.rs:1847-1873 | the counting loop gives the paragraph level: without `respect_pdi` the level of the first strong character that is in no isolate (P2, P3), or the fallback |
| `Isolates.ScanIsP2P3` | bidi/src/lib.rs:1847-1873 | from any position: with the isolates of BD9 that are open counted, the scan decides as P2 and P3 do; its counter never misjudges an unmatched initiator or a stray PDI |
| `Isolates.FsiLevelStopsAtMatchingPdi` | bidi/src/lib.rs:1416-1425 | for an FSI the same scan with `respect_pdi` decides on exactly the text up to the matching PDI of the FSI (BD9), or up to the end of the text when it has none |
| `LevelStacks.LevelStack.constructor` | bidi/src/level_stack.rs:22-29 | an empty stack of 125 slots |
| `LevelStacks.LevelStack.Push` | bidi/src/level_stack.rs:35-51 | a full stack drops the push, silently; otherwise the entry is on top and all others stay |
| `LevelStacks.LevelStack.Pop` | bidi/src/level_stack.rs:53-57 | the top entry goes, an empty stack stays empty |
| `LevelStacks.LevelStack.EmbeddingLevel` | bidi/src/level_stack.rs:59-61 | the level of the top entry |
| `LevelStacks.LevelStack.OverrideStatus` | bidi/src/level_stack.rs:63-65 | the override of the top entry |
| `LevelStacks.LevelStack.IsolateStatus` | bidi/src/level_stack.rs:75-77 | the isolate flag of the top entry |
| `Explicit.StepKeepsStackOk` | bidi/src/lib.rs:1323-1491 | every step of X1-X8 keeps a stack that starts with the base entry and whose levels strictly increase up to 125, whatever the number of slots |
| `Explicit.PopIsolateIsPrefix` | bidi/src/lib.rs:1449-1455 | closing an isolate leaves the entries below the last isolate entry, none of them changed |
| `ExplicitFacts.StepKeepsStatus` | bidi/src/lib.rs:1323-1491 | while a slot is free, every step keeps `valid_isolate` equal to the isolate entries on the stack, and the pop loop of X6a stops on one |
| `ExplicitFacts.UaxRunKeepsStatus` | bidi/src/lib.rs:1323-1491 | with the 127 slots UAX #9 asks for, no text makes the machine fail and the invariant holds after every character |
| `ExplicitFacts.TracksUaxIffNoDroppedPush` | bidi/src/level_stack.rs:35-51 | the source (125 slots) is in the state UAX #9 asks for after every character if and only if the text never needs more than 125 slots |
| `ExplicitFacts.ConformsWithoutDroppedPush` | bidi/src/lib.rs:1323-1508 | without a dropped push the source does not panic and gives the levels and classes UAX #9 asks for |
| `ExplicitFacts.RightToLeftBaseDropsNothing` | bidi/src/level_stack.rs:35-51 | over base level 1 no text drops a push |
| `ExplicitFacts.OnlyLevel125CanBeDropped` | bidi/src/level_stack.rs:35-51 | over base level 0 a full stack holds the levels 0 to 124, so that only a push of level 125 can be dropped |
| `ExplicitFacts.FewInitiatorsDropNothing` | bidi/src/level_stack.rs:35-51 | a text with fewer than 125 embedding and isolate initiators drops nothing |
| `ExplicitFacts.ValidCountsDropped` | bidi/src/lib.rs:1389-1461 | whatever the number of slots, `valid_isolate` exceeds the isolate entries on the stack by exactly the isolates whose entries a full stack has dropped |
| `ExplicitFacts.CompletesIff` | bidi/src/lib.rs:1441-1461 | the explicit pass gets through a text, the pop loop of X6a always stopping on an isolate entry, if and only if no PDI finds isolates counted as valid that have all been dropped |
| `ExplicitFacts.DroppedIsolatePanics` | bidi/src/lib.rs:1449-1455 | a concrete text on which a dropped isolate is counted as valid, so that the pop loop runs off the stack: the condition above is needed |
| `Context.BidiContext.OpenEmbeddingOn` | bidi/src/lib.rs:1341-1388 | X2-X5 on the stack: the entry asked for is pushed, or an overflow counted, never both |
| `Context.BidiContext.OpenIsolateOn` | bidi/src/lib.rs:1389-1440 | X5a-X5c on the stack and the counters |
| `Context.BidiContext.PopToIsolate` | bidi/src/lib.rs:1449-1455 | the pop loop of X6a ends below the last isolate entry |
| `Context.BidiContext.SetFromTop` | bidi/src/lib.rs:1390-1394 | level and class from the top entry, nothing else changed |
| `Context.BidiContext.EmbeddingAt` | bidi/src/lib.rs:1341-1388 | X2-X5 for each of RLE, LRE, RLO, LRO |
| `Context.BidiContext.IsolateAt` | bidi/src/lib.rs:1389-1440 | X5a-X5c: the initiator itself belongs outside; an FSI looks ahead to its matching PDI |
| `Context.BidiContext.IsolateEndAt` | bidi/src/lib.rs:1441-1461 | X6a: the PDI belongs to the embedding it returns to |
| `Context.BidiContext.EmbeddingEnd` | bidi/src/lib.rs:1462-1475 | X7 is the step of the machine at a PDF, of which `OpenLaws.PdfEndsEmbedding` and `OpenLaws.LonePdfChangesNothing` say what it undoes |
| `Context.BidiContext.ExplicitAt` | bidi/src/lib.rs:1336-1490 | X2-X8 for one character is one step of the machine |
| `Context.BidiContext.ExplicitEmbeddingLevels` | bidi/src/lib.rs:1323-1491 | the loop over a reused context gives every character the level and class of the machine, stale levels included |
| `Context.BidiContext.DeleteFormatCharacters` | bidi/src/lib.rs:1494-1508 | X9: exactly the removed classes lose their level |
| `Embeddings.OpenInitiatorsOk` | bidi/src/lib.rs:1323-1491 | the initiators found open by going through the text are exactly the isolate initiators that BD9 leaves open and the embedding initiators that BD11 leaves open, in order |
| `Embeddings.MatchingPdfEnds` | bidi/src/lib.rs:1462-1475 | the PDF that BD11 matches with an embedding initiator closes that initiator and no other |
| `Embeddings.MatchingPdiEnds` | bidi/src/lib.rs:1441-1461 | the PDI that BD9 matches with an isolate initiator closes it, the embeddings in it, and nothing else |
| `OpenEntries.StatusOfLastOpen` | bidi/src/lib.rs:1323-1491 | the whole status (stack and all three counters) before a character is the one right after the last initiator that is open there: whatever has been closed has left no trace |
| `OpenStacks.FsiIsRtlIff` | bidi/src/lib.rs:1416-1425 | an FSI counts as RLI exactly when the first strong character between it and its matching PDI, isolates skipped, is R or AL |
| `OpenStacks.FirstStrongIs` | bidi/src/lib.rs:1847-1873 | the first strong character of P2 is the first L, R or AL that is in no isolate |
| `OpenStacks.InitiatorPushes` | bidi/src/lib.rs:1341-1440 | an initiator pushes the entry it calls for (the least level above of its parity; RTL override for an RLO only, LTR override for an LRO only, isolate for RLI, LRI and FSI only), unless that level would pass 125 or an overflow is pending |
| `OpenStacks.StackOfOpenInitiators` | bidi/src/lib.rs:1323-1491 | the stack before a character is the base entry with the entries that the initiators open there call for, up to the first for which no level is left |
| `OpenStacks.StackForIsUnique` | bidi/src/lib.rs:1323-1491 | the open initiators leave no choice for that stack |
| `OpenLaws.PdfEndsEmbedding` | bidi/src/lib.rs:1462-1475 | X7: right after the matching PDF of BD11 the status is what it was at the initiator, whether that was pushed or overflowed |
| `OpenLaws.LonePdfChangesNothing` | bidi/src/lib.rs:1462-1475 | X7: a PDF that matches no embedding initiator changes nothing |
| `OpenLaws.PdiEndsIsolate` | bidi/src/lib.rs:1441-1461 | X6a: right after the matching PDI of BD9 the status is what it was at the initiator |
| `OpenLaws.LonePdiChangesNothing` | bidi/src/lib.rs:1441-1461 | X6a: a PDI that matches no isolate initiator changes nothing |
| `OpenLaws.LevelWhileOpen` | bidi/src/lib.rs:1323-1491 | as long as an embedding or isolate is open, every level is above the level at its initiator if that has pushed an entry, and is that level if it has overflowed |
| `OpenLaws.SourcePdfEndsEmbedding` | bidi/src/lib.rs:1462-1475 | of the source, in a text that drops no push: it is behind a matching PDF where it was before the initiator, and the levels between are above the level there, or that level for an initiator that overflowed |
| `OpenLaws.SourceFromOpenInitiators` | bidi/src/lib.rs:1323-1508 | of the source, in a text that drops no push: the level and the class of every character after X1-X9 from the initiators that are open there, class by class |
| `Runs.SpanOneRun` | bidi/src/lib.rs:1800-1842 | a run is a maximal stretch of one level up to and including its first isolate initiator, removed characters skipped |
| `Runs.RunsAreTiled` | bidi/src/lib.rs:1511-1537 | runs follow each other without gaps and leave out only a tail of removed characters |
| `Runs.FirstSignificantBidiClass` | bidi/src/lib.rs:1766-1777 | the class of the first character of the run that was not removed, None if there is none |
| `RunFacts.SequencesPartition` | bidi/src/lib.rs:1597-1646 | the sequences hold every run once, and each join goes from a run that ends in an initiator to a later run of the same level that begins with a PDI |
| `RunFacts.IndicesIncrease` | bidi/src/lib.rs:1651-1658 | the indices of a sequence strictly increase |
| `RunFacts.SequencesOfText` | bidi/src/lib.rs:1511-1701 | every character that was not removed is in exactly one isolating run sequence; its indices strictly increase, its other characters have the level of the sequence, and sos and eos are L or R |
| `IsolateLevels.StepMoves` | bidi/src/lib.rs:1323-1491 | what one step does to the stack and to the count of overflowing isolates: an initiator pushes an isolate entry or overflows, nothing else pops one but a PDI, and a PDI first works off the overflow |
| `IsolateLevels.LevelInside` | bidi/src/lib.rs:1323-1491 | as long as an isolate is open in the sense of BD9, every level is above that of its initiator when the initiator was opened, and is the level of its initiator when it overflowed |
| `IsolateLevels.MatchCloses` | bidi/src/lib.rs:1441-1461 | at the PDI that BD9 matches with an initiator, overflowing or not, stack and overflow are back to what they were at the initiator |
| `IsolateLevels.MatchedLikeInitiator` | bidi/src/lib.rs:1389-1461 | an initiator and its matching PDI are at one level, and an override turns both of them into letters or neither |
| `IsolateLevels.SourceLevelsInside` | bidi/src/lib.rs:1323-1508 | the same of the levels of the source, in a text that drops no push |
| `IsolatingRuns.SequencesAreBD13` | bidi/src/lib.rs:1597-1646 | in a text without a breaking initiator the search for a later run of the same level that begins with a PDI always finds the run BD13 asks for, and none when BD13 asks for none |
| `BD13.SourceFollowsBD13` | bidi/src/lib.rs:1597-1646 | BD13 on the original classes, overrides and overflow included: every sequence goes on as BD13 says (the next character of the level run or, after its last one, the matching PDI that begins another level run) if and only if no initiator breaks it |
| `BD13.OpenedBreaksIff` | bidi/src/lib.rs:1597-1646 | an initiator that opens an isolate breaks BD13 exactly when an override has turned it into a letter and a remaining character stands between it and its matching PDI, or when it stands right before the final separator at the base level |
| `BD13.OverflowingBreaksIff` | bidi/src/lib.rs:1822-1838 | an initiator that overflows breaks BD13 exactly when it is not overridden and is directly followed by something else than a PDI, a separator at another level apart |
| `BD13.SourceFollowsBD13WithoutOverflow` | bidi/src/lib.rs:1597-1646 | without overflowing isolates: the sequences are those of BD13 if and only if no matched initiator under an override has something between it and its PDI, and none stands right before the final separator at the base level |
| `BD13.OverrideLeavesBD13` | bidi/src/lib.rs:1614-1639 | LRO RLI x PDI over base level 0: nothing dropped, nothing overflows, and the matching PDI is not in the sequence of the RLI |
| `BD13.OverflowLeavesBD13` | bidi/src/lib.rs:1822-1838 | 124 embeddings, LRI x PDI over base level 0: nothing dropped or overridden, and one level run is cut in two sequences |
| `Context.BidiContext.IdentifyRuns` | bidi/src/lib.rs:1511-1537 | the loop cuts the text into the runs of X10 |
| `Context.BidiContext.CalculateSorEor` | bidi/src/lib.rs:1539-1554 | the loop sets sor and eor of every run as X10 does, of which `SequenceSides.SidesInText` says what they are |
| `Context.BidiContext.IdentifyIsolatingRunSequences` | bidi/src/lib.rs:1597-1646 | the nested loops over runs with their assignment marks give the sequences of X10 |
| `Context.BidiContext.ContinueSequence` | bidi/src/lib.rs:1597-1646 | the inner search takes the next run of the level that begins with a PDI and is not assigned |
| `Context.BidiContext.BuildTextChains` | bidi/src/lib.rs:1651-1658 | the index list of a sequence |
| `Context.BidiContext.CalculateSosEos` | bidi/src/lib.rs:1685-1701 | eos from the base level when the sequence ends in an initiator without a following run |
| `SequenceSides.SidesFromLevels` | bidi/src/lib.rs:1539-1554 | sos is R exactly when the higher of the level of the sequence and of the last remaining character before its first one is odd, eos with the first remaining character after its last one; at the ends of the text, and behind an isolate initiator that ends the sequence, the base level counts |
| `SequenceSides.SidesInText` | bidi/src/lib.rs:1685-1701 | the same of every sequence of the source |
| `Context.BidiContext.ResolveCombiningMarks` | bidi/src/lib.rs:527-538 | the pass that rewrites every sequence in place equals W1 as a simultaneous definition on the classes before it, and touches nothing outside the sequences |
| `Context.BidiContext.ResolveEuropeanNumbers` | bidi/src/lib.rs:551-580 | the pass that rewrites every sequence in place equals W2 as a simultaneous definition on the classes before it, and touches nothing outside the sequences |
| `Context.BidiContext.ResolveArabicLetters` | bidi/src/lib.rs:589-597 | the pass that rewrites every sequence in place equals W3 as a simultaneous definition on the classes before it, and touches nothing outside the sequences; `LetterLaws.ArabicBecomesR` says what that is |
| `Context.BidiContext.ResolveSeparators` | bidi/src/lib.rs:662-682 | the pass that rewrites every sequence in place equals W4 as a simultaneous definition on the classes before it, and touches nothing outside the sequences |
| `Context.BidiContext.ResolveTerminators` | bidi/src/lib.rs:704-725 | the pass that rewrites every sequence in place equals W5 as a simultaneous definition on the classes before it, and touches nothing outside the sequences |
| `Context.BidiContext.ResolveEsCsEt` | bidi/src/lib.rs:736-749 | the pass that rewrites every sequence in place equals W6 as a simultaneous definition on the classes before it, and touches nothing outside the sequences; `LetterLaws.SeparatorsBecomeNeutral` says what that is |
| `Context.BidiContext.ResolveEn` | bidi/src/lib.rs:759-784 | the pass that rewrites every sequence in place equals W7 as a simultaneous definition on the classes before it, and touches nothing outside the sequences |
| `Context.BidiContext.SeparatorAt` | bidi/src/lib.rs:662-682 | in the middle of the pass the separator is still decided by its neighbours as they were before it |
| `Context.BidiContext.SweepTerminators` | bidi/src/lib.rs:704-725 | from a European number the sweep rewrites exactly the terminators it reaches in both directions |
| `Context.BidiContext.IsPriorContext` | bidi/src/lib.rs:603-621 | the nearest character before that was not removed is of the class |
| `Context.BidiContext.IsFollowingContext` | bidi/src/lib.rs:627-642 | the nearest character after that was not removed is of the class |
| `WeakFacts.MarkTakesPrevious` | bidi/src/lib.rs:527-538 | W1: a mark gets the class the rule gives to the character before it, or sos |
| `IsolateMarks.W1AgreesIff` | bidi/src/lib.rs:527-538 | the code gives the classes of W1 as UAX #9 states it (ON after an isolate initiator or PDI) if and only if no mark comes right after an initiator or PDI |
| `IsolateMarks.EitherW1WillDo` | bidi/src/lib.rs:527-1207 | W2-N2 end with the same classes whichever of the two W1 comes first, with or without N0 |
| `IsolateMarks.AlikeN0` | bidi/src/lib.rs:805-1026 | N0 overflows on both or on neither, and resolves the same pairs to the same classes |
| `IsolateMarks.ResultFromEitherW1` | bidi/src/lib.rs:456-505 | so the result of `resolve` for every sequence is the one W1 of UAX #9 leads to |
| `WeakFacts.NumberAfterArabic` | bidi/src/lib.rs:551-580 | W2: EN becomes AN exactly when the last strong class before it is AL |
| `WeakFacts.SeparatorBetweenNumbers` | bidi/src/lib.rs:662-682 | W4: a separator changes exactly between two numbers of one type, an ES only between European numbers |
| `WeakFacts.StretchTouchesNumber` | bidi/src/lib.rs:704-725 | W5: the terminators of a maximal stretch become EN exactly when the stretch touches an EN |
| `WeakFacts.NumberAfterLatin` | bidi/src/lib.rs:759-784 | W7: EN becomes L exactly when the last L or R before it, or else sos, is L |
| `LetterLaws.ArabicBecomesR` | bidi/src/lib.rs:589-597 | in every sequence W3 makes each AL an R and changes nothing else |
| `LetterLaws.SeparatorsBecomeNeutral` | bidi/src/lib.rs:736-749 | in every sequence W6 makes each ES, CS and ET that W5 has left an ON and changes nothing else |
| `LetterLaws.LettersInResult` | bidi/src/lib.rs:456-505 | in the result of `resolve` what X1-X9 leave as L is L, and what they leave as R or AL is R, original combining marks apart |
| `LetterLaws.OverriddenMarkInResult` | bidi/src/lib.rs:878-944 | a combining mark that an override has made L or R keeps that class in the result if and only if it does not follow a bracket whose pair N0 gives the other one; otherwise it ends as that other one |
| `OverriddenMarks.OverriddenMarkTurns` | bidi/src/lib.rs:878-944 | RLE L ( L ) PDF RLO NSM over base level 0: the override makes the mark R, and the result has L for it |
| `Brackets.BracketStack.constructor` | bidi/src/lib.rs:1906-1913 | an empty stack of 63 slots |
| `Brackets.BracketStack.Clear` | bidi/src/lib.rs:1915-1918 | empties stack and pairs |
| `Brackets.BracketStack.Push` | bidi/src/lib.rs:1920-1929 | refuses the 64th entry and changes nothing then |
| `Brackets.BracketStack.SeekMatchingOpenBracket` | bidi/src/lib.rs:1949-1981 | pairs the topmost entry the bracket closes and pops down to it, or changes nothing |
| `Brackets.SortIsSorted` | bidi/src/lib.rs:843 | sorting by opening position gives a sorted permutation |
| `BracketFacts.ScanIsBD16` | bidi/src/lib.rs:815-834 | until the stack overflows, the scan finds exactly the pairs of BD16, said without a stack: a closing bracket is paired with the nearest opening one it closes that no earlier pair has used up or enclosed |
| `BracketFacts.BD16IsUnique` | bidi/src/lib.rs:815-834 | there is only one such set of pairs |
| `BracketFacts.PairsNestOrAreDisjoint` | bidi/src/lib.rs:1949-1981 | two pairs share no position; one encloses the other or they are apart |
| `BracketFacts.GivesUpIff` | bidi/src/lib.rs:1920-1929 | the scan gives up at an opening bracket exactly when 63 are available already |
| `BracketFacts.PairsOfIsBD16` | bidi/src/lib.rs:815-843 | N0 resolves the pairs of BD16, each once, in the order of their opening brackets |
| `BracketFacts.BothBracketsAgree` | bidi/src/lib.rs:878-1026 | after N0 the brackets of every pair have one class, the one given in the turn of the pair: neither later pairs nor the fix-up of marks undo it |
| `Context.BidiContext.SetBracketPairBc` | bidi/src/lib.rs:878-944 | both brackets and exactly the marks that follow them get the class |
| `Context.BidiContext.ResolveOnePair` | bidi/src/lib.rs:953-1026 | the method is the step of N0 for one pair, which by `PairFacts.ResolvedInTurn` is N0 b to d |
| `Context.BidiContext.PairedBracketsIn` | bidi/src/lib.rs:805-856 | N0 for one sequence: its pairs one after the other, or nothing when the stack overflows |
| `Context.BidiContext.ResolvePairedBrackets` | bidi/src/lib.rs:805-856 | N0 for the sequences before the first one that overflows the bracket stack; that one and all after it keep their classes |
| `Passes.GivingUpIsSkippingIff` | bidi/src/lib.rs:805-826 | giving up at the first overflow leaves the classes that skipping only the overflowing sequences would leave, if and only if N0 has nothing to change in any later sequence |
| `Counterexamples.OverflowSilencesLaterPairs` | bidi/src/lib.rs:822-825 | 64 opening brackets, then R ( R ) L in an embedding: N0 would make the second pair R, the result of `resolve` has L for its closing bracket |
| `Passes.FirstOverflowIsFirst` | bidi/src/lib.rs:822-825 | the sequence at which N0 stops is the first with more open brackets than the stack holds |
| `PairFacts.ClosesIff` | bidi/src/lib.rs:1949-1981 | opening and closing brackets are ON after W7, and one closes another when the table pairs them or both are of the two equivalent angle brackets |
| `PairFacts.ResolvedInTurn` | bidi/src/lib.rs:953-1026 | N0 b to d for one pair: a character inside that counts as the embedding direction decides for it; with none but the opposite inside, the pair is for the opposite exactly when the last character before it that is no neutral, or sos, counts as that; with neither it is left alone. Both brackets and the marks that follow them get the class, nothing else changes |
| `PairFacts.N0TakesTurns` | bidi/src/lib.rs:836-856 | N0 is that, pair by pair in the order of the opening brackets, each on the classes the pairs before it have left |
| `PairFacts.BracketsAfterN0` | bidi/src/lib.rs:953-1026 | so both brackets of every pair end N0 as L, R or ON by the classes inside and before the pair at its turn |
| `Context.BidiContext.IsPriorContextLeft` | bidi/src/lib.rs:1077-1103 | the first character before that is neither neutral nor removed, or sos, counts as L |
| `Context.BidiContext.IsPriorContextRight` | bidi/src/lib.rs:1143-1163 | likewise as R, numbers included |
| `Context.BidiContext.IsFollowingContextLeft` | bidi/src/lib.rs:1107-1136 | the first character after that is neither neutral nor removed, or eos, counts as L |
| `Context.BidiContext.IsFollowingContextRight` | bidi/src/lib.rs:1165-1187 | likewise as R, numbers included |
| `Context.BidiContext.ResolveNeutralsByContext` | bidi/src/lib.rs:1042-1072 | the backwards pass in place equals N1 as a simultaneous definition |
| `Context.BidiContext.ResolveNeutralsByLevel` | bidi/src/lib.rs:1199-1207 | N2 |
| `Context.BidiContext.ResolveImplicitLevels` | bidi/src/lib.rs:1210-1242 | the loop raises every level as I1 and I2 do, within a signed byte; `ResultLaws.FinalLevelIsLeast` says to what |
| `NeutralFacts.BlockGetsOneClass` | bidi/src/lib.rs:1042-1207 | N1 and N2 give a maximal block of neutrals (removed characters skipped) one class: the direction both sides share, numbers as R and sos or eos at the ends, or else the embedding direction |
| `NeutralFacts.OthersKeepTheirClass` | bidi/src/lib.rs:1042-1207 | what is no neutral is not touched |
| `NeutralFacts.BlockAround` | bidi/src/lib.rs:1042-1207 | every neutral is in such a block |
| `Context.BidiContext.Resolve` | bidi/src/lib.rs:456-505 | `resolve` on a context that may hold anything: the result is the resolution of the paragraph, and has the properties of `Resolution.Resolved` |
| `Context.BidiContext.ResolveParagraph` | bidi/src/lib.rs:436-448 | the same from characters |
| `Context.BidiContext.SetCharTypes` | bidi/src/lib.rs:450-454 | the same from classes, without brackets |
| `Resolution.ResolutionIsResolved` | bidi/src/lib.rs:456-505 | a level is -1 exactly for the classes X9 removes; all others end as L, R, EN or AN, with a level from the base level to 126 that is odd exactly for R |
| `Resolution.ResolutionExists` | bidi/src/lib.rs:456-505 | every paragraph on which the source does not panic has a resolution |
| `Resolution.ResolutionIsUnique` | bidi/src/lib.rs:456-505 | hint and paragraph alone decide classes and levels, so nothing a reused context held can show through |
| `Resolution.RuleKeepsRemoved` | bidi/src/lib.rs:527-1207 | no rule gives a removed character a class or takes one away |
| `Outcome.BlocksInResult` | bidi/src/lib.rs:456-505 | in the result of `resolve` every maximal block of neutrals left by N0 has the one class N1 and N2 promise |
| `Outcome.PairsInResult` | bidi/src/lib.rs:456-505 | in the result of `resolve` both brackets of a pair that N0 has resolved are of the class it was given, in every sequence before the first one that overflows the bracket stack |
| `ResultLaws.PairDirectionInResult` | bidi/src/lib.rs:805-1026 | the same in the result of `resolve`: which direction both brackets of a pair have, in every sequence before the first one that overflows the bracket stack |
| `ResultLaws.FinalLevelIsLeast` | bidi/src/lib.rs:1210-1242 | I1 and I2 in the result of `resolve`: with l the level after X1-X9, L is at the least even level from l on, R at the least odd one, EN and AN at the least even one above l |
| `ResultLaws.BaseLevelIs` | bidi/src/lib.rs:461-470 | the base level of the four hints: 0 or 1 as given, or by the first strong character outside isolates (L for 0, R and AL for 1), and without one as the hint falls back |
| `Whitespace.ResetBefore` | bidi/src/lib.rs:1268-1286 | the backwards scan resets exactly the whitespace and isolate controls with nothing else but removed characters up to the stop |
| `Whitespace.ResetWhitespaceLevels` | bidi/src/lib.rs:1267-1320 | the loop, which works on levels it has already changed, is L1: base level exactly at separators and at whitespace and isolate controls with only whitespace, isolate controls or removed characters up to a separator or the end of the line |
| `Whitespace.L1IsUnique` | bidi/src/lib.rs:1267-1320 | L1 leaves no choice: levels that meet it are the ones it gives |
| `Whitespace.L1ByClass` | bidi/src/lib.rs:1267-1320 | L1 by the classes: S, B, and each WS, RLI, LRI, FSI or PDI that only such characters and removed ones separate from an S, a B or the end of the line get the base level, all others keep theirs |
| `Context.BidiContext.ResetWhitespaceLevels` | bidi/src/lib.rs:1267-1320 | L1 for a line of the resolved paragraph |
| `Lines.SpanIsMaximal` | bidi/src/lib.rs:187-195 | the longest stretch of the level at the start |
| `Lines.RunIter.Next` | bidi/src/lib.rs:131-170 | returns the next run, and its `removed_by_x9` is always empty |
| `Lines.RunsPartition` | bidi/src/lib.rs:137-170 | the runs of a line are maximal ranges of one level without removed characters, in order, and hold exactly the characters that were not removed; this settles the doubt at lines 80-84 |
| `Context.BidiContext.LineRuns` | bidi/src/lib.rs:227-235 | `line_runs`: that for the levels after L1 |
| `Context.BidiContext.AllRuns` | bidi/src/lib.rs:216-222 | `runs`: that for the whole paragraph |
| `Reorder.ReversePass` | bidi/src/lib.rs:382-427 | the pass for one level over all positions, removed ones included, reverses on the remaining characters exactly the maximal stretches at that level or higher, though it may also reverse or skip stretches of placeholders |
| `Reorder.ReverseLevels` | bidi/src/lib.rs:341-433 | with L3 off, placeholders and level-blind swaps in place end in the order of L2 on the characters that are left |
| `Reorder.LevelBounds` | bidi/src/lib.rs:344-365 | highest and lowest odd level of the line, and whether there is any |
| `Reorder.OutputIsPermutation` | bidi/src/lib.rs:341-433 | the output holds every position of the line that was not removed exactly once |
| `Reorder.ConformsToL2` | bidi/src/lib.rs:345 | the source orders a line as L2 does if and only if the line has an odd level or no two neighbours at level 126 |
| `Counterexamples.NeighboursAt126Occur` | bidi/src/lib.rs:345 | 124 embeddings and AN AN: `resolve` gives a line without odd levels and with two neighbours at level 126 |
| `Reorder.L2ShowsRuns` | bidi/src/lib.rs:382-432 | in the order of L2 every logical level run is in one piece, ascending at even and descending at odd levels, and two runs of one level are never side by side |
| `LeastBetween.L2ByLeastLevel` | bidi/src/lib.rs:382-432 | L2 without reversals: of two characters the logically first is shown first exactly when the least level between them, their own included, is even |
| `Reorder.DownArranges` | bidi/src/lib.rs:382-432 | what is reversed are positions, whatever is shown at them |
| `Context.BidiContext.ReorderLine` | bidi/src/lib.rs:278-285 | `reorder_line`: L1, then L2 |
| `Lines.ReorderedPieces` | bidi/src/lib.rs:242-272 | the loops of `reordered_runs` cut the visual order where the level read for it changes |
| `ReorderedLines.ReorderedRunsShowLine` | bidi/src/lib.rs:237-272 | on a line that starts the paragraph the runs put side by side are the visual order, and each is a whole level run of the line in its reading direction with its range and direction, nothing skipped, if and only if the line has an odd level or no two neighbours at level 126 |
| `Lines.IndexedInRangeIff` | bidi/src/lib.rs:243-247 | paragraph positions stay inside the levels of the line, so that the source does not panic, exactly when adding the start of the line keeps every remaining character inside |
| `Lines.RightLevelsIff` | bidi/src/lib.rs:243-247 | every character is given its own level if and only if the line starts the paragraph or holds no characters |
| `Context.BidiContext.ReorderedRuns` | bidi/src/lib.rs:237-272 | `reordered_runs` under the condition that it does not panic |
| `Base91.TablesAreInverse` | base91/src/lib.rs:38-67 | encoding and decoding table are inverse to each other on the 91 symbols |
| `Base91.GroupFits` | base91/src/lib.rs:94-109 | a group of 13 or 14 bits has two symbols below 91, and the decoder sees its width from its value |
| `Base91.RestFits` | base91/src/lib.rs:117-126 | so has what is pending at the end |
| `Base91.Encoder.constructor` | base91/src/lib.rs:73-79 | nothing pending |
| `Base91.Encoder.Write` | base91/src/lib.rs:89-115 | writes what the bytes make the bit queue emit, and keeps the rest pending |
| `Base91.Encoder.Flush` | base91/src/lib.rs:117-131 | writes what is pending in one or two symbols |
| `Base91.Decoder.constructor` | base91/src/lib.rs:159-166 | nothing pending |
| `Base91.Decoder.Write` | base91/src/lib.rs:176-206 | the counterpart for symbols; other bytes change nothing |
| `Base91.Decoder.Flush` | base91/src/lib.rs:208-216 | a single symbol completes the last byte |
| `Base91Facts.LinkStays` | base91/src/lib.rs:89-206 | after every byte the bytes taken in and not yet given out are the bits of the decoder queue with those of the encoder queue above them |
| `Base91Digits.EncodingSpellsData` | base91/src/lib.rs:89-131 | the text of an encoding is the number whose bytes, lowest first, are the data: two symbols are two digits to base 91, the lower one first, and stand for 13 bits, or for 14 when the lower 13 are at most 88 |
| `Base91Facts.RoundTrip` | base91/src/lib.rs:136-229 | decode(encode(x)) == x for all bytes |
| `Base91Facts.RoundTripThroughNoise` | base91/src/lib.rs:41-43 | still with bytes outside the alphabet put anywhere into the text |
| `Base91Facts.EncodePieces` | base91/src/lib.rs:136-144 | fed in any pieces, the encoder writes the encoding of the whole |
| `Base91Facts.DecodePieces` | base91/src/lib.rs:221-229 | fed in any pieces, the decoder writes the decoding of the whole |
| `Base91Facts.SizeBounds` | base91/src/lib.rs:4-6 | N bytes become L with 16N <= 14L and 13L <= 16N + 12 |
| `Base91Facts.EncodeIsAlphabetic` | base91/src/lib.rs:38 | every byte written is in the alphabet |
| `Frames.LebRoundTrip` | codec/src/lib.rs:45-57 | a variable-length integer of 64 bits is read back, whatever follows |
| `Frames.LebLength` | codec/src/lib.rs:45-57 | an integer takes at most k bytes exactly when it has at most 7k bits |
| `Frames.LebDigit` | codec/src/lib.rs:45-57 | each byte of it holds 7 bits, the lowest first, and all but the last have the top bit set |
| `Frames.LebPrefix` | codec/src/lib.rs:126-153 | a strict prefix of one is incomplete |
| `Frames.ReadU64Async` | codec/src/lib.rs:126-153 | reading byte by byte and trying again agrees with reading at once, and takes no byte too many |
| `Frames.EncodeRawAsVec` | codec/src/lib.rs:61-91 | length with the flag in its highest bit, serial, ident, payload |
| `Frames.FrameLayout` | codec/src/lib.rs:61-91 | what is read from an encoded frame one after the other: the number of bytes that follow, with the flag in the highest of 64 bits, the serial number, the ident, and then the payload to the end |
| `Frames.FrameRoundTrip` | codec/src/lib.rs:238-281 | decoding what starts with an encoded frame gives the frame and takes exactly its bytes |
| `Frames.FramePrefix` | codec/src/lib.rs:238-281 | a strict prefix of a frame asks for more |
| `Frames.StreamDecode` | codec/src/lib.rs:528-561 | drops the bytes of a decoded frame from the buffer, and leaves the buffer alone otherwise |
| `Frames.TryReadAndDecode` | codec/src/lib.rs:563-592 | the loop of reads and attempts |
| `Frames.CallStaysInStep` | codec/src/lib.rs:563-592 | one call, however the bytes are split: the next frame, or nothing while that frame is incomplete, or the end where the frames end; buffer and unread bytes are always the frames still to come |
| `Frames.FramesArrive` | codec/src/lib.rs:563-592 | calling again and again receives exactly the frames sent, in order |
| `Hyperlinks.RangeUnion` | rangeset/src/lib.rs:75-85 | the hull of two ranges |
| `Hyperlinks.StripLine` | codec/src/lib.rs:1020-1056 | one line loses its links; its streaks are recorded from left to right |
| `Hyperlinks.FromLines` | codec/src/lib.rs:1014-1107 | so do all lines |
| `Hyperlinks.StreaksInOrder` | codec/src/lib.rs:1020-1098 | every record is of a maximal streak of one link object; within a line ranges come from left to right and are disjoint |
| `Hyperlinks.AllLinkedCovered` | codec/src/lib.rs:1020-1098 | every linked cell is in a record |
| `Hyperlinks.RecordsOfLines` | codec/src/lib.rs:1014-1107 | no cell is in two records |
| `Hyperlinks.ExtractData` | codec/src/lib.rs:983-1011 | a new link object for every record, set in the cells of its ranges |
| `Hyperlinks.NothingIsLost` | codec/src/lib.rs:983-1107 | every cell comes back with its text and a link that says the same |
| `Hyperlinks.IdentityIsPerStreak` | codec/src/lib.rs:970-976 | two cells share a link object afterwards if and only if they were in one streak of one line, which is less than the comment there promises |
| `BinTree.ProperIsProper` | bintree/src/lib.rs:11-14 | a cursor is proper just when the tree it stands for is |
| `BinTree.NumLeaves` | bintree/src/lib.rs:193-199 | the number of leaves |
| `BinTree.LeavesOfWhole` | bintree/src/lib.rs:72-95 | the leaves of the whole tree are those before the position, those of the subtree, and those after it |
| `BinTree.TreeOf` | bintree/src/lib.rs:547-554 | `tree` gives the tree the cursor stands for |
| `BinTree.PreorderNext` | bintree/src/lib.rs:472-496 | the loop of `preorder_next` |
| `BinTree.StepFollows` | bintree/src/lib.rs:472-496 | a step goes to the next position of the preorder, and fails at the top exactly after the last |
| `BinTree.TraversalVisitsAllOnce` | bintree/src/lib.rs:464-496 | from the top the traversal visits every node of a proper tree, once, and then fails |
| `BinTree.PostorderNext` | bintree/src/lib.rs:506-530 | `postorder_next` is `preorder_next` seen in a mirror |
| `BinTree.BackStepFollows` | bintree/src/lib.rs:506-530 | a step of `postorder_next` goes to the next position in the order node, right, left, and fails at the top after the last |
| `BinTree.BackFromTop` | bintree/src/lib.rs:498-505 | from the top that order is the mirrored preorder of the whole tree |
| `BinTree.BackTraversalVisitsAllOnce` | bintree/src/lib.rs:498-530 | from the top `postorder_next` visits every node of a proper tree, once, and then fails |
| `BinTree.PostorderOnlyWithoutNodes` | bintree/src/lib.rs:498-530 | from the top it visits in the order left, right, node if and only if the tree has no node |
| `BinTree.GoToNthLeaf` | bintree/src/lib.rs:533-544 | the loop of `go_to_nth_leaf` finds the n-th leaf position ahead, or fails at the top |
| `BinTree.NthLeafIs` | bintree/src/lib.rs:532-544 | it succeeds exactly when so many leaves are ahead, and lands on the n-th of them |
| `BinTree.NthLeafFromTop` | bintree/src/lib.rs:532-544 | from the top: exactly when n is below `num_leaves`, on the n-th leaf from the left |
| `BinTree.MovesKeepTree` | bintree/src/lib.rs:402-554 | after any mix of moves, failed ones included, `tree` gives back the tree |
| `TreeEdits.LeafSplitsInsertBeside` | bintree/src/lib.rs:352-394 | a leaf split inserts right before or after the leaf, fails elsewhere with the cursor unchanged, and keeps the tree proper |
| `TreeEdits.NodeSplitsInsertBeside` | bintree/src/lib.rs:324-350 | a node split inserts before or after all leaves of the subtree |
| `TreeEdits.AssignTopStartsTree` | bintree/src/lib.rs:236-250 | only the empty tree can be given a first leaf |
| `TreeEdits.AssignNodeKeepsLeaves` | bintree/src/lib.rs:278-292 | node data is stored at the position over the same two subtrees and touches neither the leaves nor the rest of the tree |
| `TreeEdits.UnsplitRemovesLeaf` | bintree/src/lib.rs:294-322 | `unsplit_leaf` removes exactly the current leaf, and fails exactly at a node or at the root |
| `TreeEdits.UnsplitUndoesSplits` | bintree/src/lib.rs:294-394 | moving to the new leaf and unsplitting undoes every split |
| `TreeEdits.BuiltIsProper` | bintree/src/lib.rs:11-14 | every tree built from nothing by edits and moves is proper |

## Left out

- Rule L3 (`reorder_non_spacing_marks`, bidi/src/lib.rs:290-334): off by default; all results are for `reorder_nsm` false.
- The Unicode tables for classes and brackets, and `dump_state`, tracing and formatting.
- `BidiRun::indices` (bidi/src/lib.rs:104-128): it filters by a list that is proved empty.
- BD13.SourceFollowsBD13: is for texts that drop no push and have a paragraph separator at the end only, as the text of one paragraph does. For other texts `RunFacts.SequencesPartition` says what joins there are.
- IsolateLevels.LevelInside: is about the machine with the 127 slots of UAX #9; `SourceLevelsInside` is about the source, for texts that drop no push.
- IsolateLevels.MatchCloses: is about the machine with 127 slots too, in whose states the source is as long as no push is dropped (`TracksUaxIffNoDroppedPush`).
- OpenLaws.PdfEndsEmbedding: is about the machine with 127 slots, as are the other laws of `OpenEntries`, `OpenStacks` and `OpenLaws`; `SourcePdfEndsEmbedding` and `SourceFromOpenInitiators` are about the source, for texts that drop no push.
- Context.BidiContext.Resolve: requires that the text does not make the source panic (`Completes`) rather than that no push is dropped; `ExplicitFacts.CompletesIff` says which texts those are.
- Context.BidiContext.ReorderedRuns: requires that no index is out of range, where the source panics; the condition is the one of `IndexedInRangeIff`.
- ReorderedLines.ReorderedRunsShowLine: is for lines that start the paragraph; on others the source reads the levels of wrong characters (`RightLevelsIff`) or panics (`IndexedInRangeIff`).
- BracketFacts.BothBracketsAgree: assumes that the bracket table gives no combining mark as a bracket, which the table of the source satisfies; `Outcome.PairsInResult`, `ResultLaws.PairDirectionInResult`, `LetterLaws.OverriddenMarkInResult` and `IsolateMarks.EitherW1WillDo` assume it too.
- Frames.ReadU64Async: the leb128 crate is not part of the repository; its integers are read as section 7.6 of DWARF version 5 describes them, with an eleventh digit or a tenth above 1 an error.
- Frames.DecodeRaw: `max_serial`, the metrics and the messages of errors are left out, and allocation never fails.
- Frames.StreamDecode: the copy between overlapping parts of one buffer is modelled as dropping the consumed prefix; the payload is not deserialized, so errors in it do not occur.
- Sockets, async plumbing, compression and serialization of messages, and the list of message types.
- Image cells in `SerializedLines`, and attributes of cells other than text and link.
- Errors of the writer behind a basE91 encoder or decoder, and the flush on drop.
- `leaf_mut`, `node_mut` and `path_to_root` of the tree cursor, which hand out references.
- The other crates of the repository.
