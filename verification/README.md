# Models and proofs for wakterm's core algorithms

This project models five parts of the wakterm sources in Dafny and proves what they are
for.

* **The Unicode Bidirectional Algorithm** (`bidi/`, rules of UAX #9). The passes over the
  character classes and embedding levels are methods that update them in place, in the
  order and with the branches of the source: explicit levels (X1-X9) with the bounded
  stack and three overflow counters, level runs and isolating run sequences (X10, BD13),
  the weak, bracket and neutral rules (W1-W7, N0-N2), implicit levels (I1, I2), trailing
  whitespace (L1) and reordering (L2). Beside them stand the rules as UAX #9 puts them:
  simultaneous, on the characters that were not removed. The lemmas relate the two, and
  say what a whole paragraph comes to.
* **basE91** (`base91/`): the streaming encoder and decoder, their round trip for all
  bytes and all ways to cut them up, and the size of the result.
* **The zipper tree** (`bintree/`): cursors, edits and traversals against the tree they
  stand for.
* **Framing** (`codec/`): LEB128 numbers, frames, taking frames from a stream that arrives
  in pieces, and the hyperlinks and images of serialized lines.
* **The pane layout checker** (`check-pane-layout.py`): it accepts exactly the panes of a
  split tree.

Where the source does not do what it is for, the model keeps what it does, a lemma names
an input or a family of inputs, and another one says exactly when it happens:

* A full directional stack ignores a push. `Explicit.FollowsUaxExactly` says that this is
  the only departure from section 3.3.2 of UAX #9, `Explicit.FullAtBaseZero` when it
  happens. It can end in a panic: `Explicit.OverfullPanics` shows one,
  `IgnoredPushes.PanicsExactly` says that a paragraph panics exactly at a PDI that finds no
  isolate entry although an isolate before it was counted and its entry ignored, and
  `IgnoredPushes.OpenIsolateDoesNotPanic` that an ignored push alone is not enough.
* The sentinel for "no odd level" in L2 is itself a level. `Reorder.DisplayOrderExact` says
  that a line is misplaced exactly when it has no odd level and two neighbours at level 126,
  `Reorder.TopNeighboursReversed` shows one.
* The look-ahead that links runs can join an overflowed isolate to a PDI of another one
  (`OverflowedIsolates.OverflowJoinsWrongly`). `Following.FollowsExactly` says when: the
  linking follows BD13 exactly unless some isolate overflows, is not overridden, and either
  has a character left between itself and its matching PDI, or has no matching PDI although
  a later initiator is directly followed by its own. `NextCharacter.ByDefinitionExactly`
  compares the sequences character by character with BD7 and BD13: they are the same
  exactly unless an initiator that is not overridden stands before a character of its own
  level that is not its matching PDI, or one that is overridden and has a matching PDI
  before a character of another level.
* That last case comes of asking for the class after overrides, where BD8 and BD9 go by the
  character: an overridden initiator is not linked to its PDI. For W1-W7, N1 and N2 that
  makes no difference (`OverriddenIsolates.UnlinkedHarmless`). A bracket pair that reaches
  over the isolate is lost, though: `OverriddenIsolates.PairReachesOver` shows a paragraph,
  and `CutSequences.CutExactly` says that N0 on the parts of a sequence so cut is N0 on the
  whole exactly if no pair of the whole reaches over the cut.
* A bracket overflow ends rule N0 for all later sequences too, and drops the pairs that the
  sequence itself had before the overflow, where BD16 and the comment at
  bidi/src/lib.rs:797-803 only end the search for pairs in that sequence.
  `BracketOverflow.CrowdedStays` shows a text that loses the pair of a later sequence,
  `BracketOverflow.LetterStays` one that loses a pair of the same, and
  `BracketOverflow.StopsTooEarlyExactly` says that the result differs from N0 for every
  sequence on its own exactly if some sequence overflows and it, before it overflows, or a
  later one has a pair that encloses a strong character or number.
* `reordered_runs` indexes the levels of a line by positions of the paragraph.
  `LineOrder.ReorderedIndexable` says when that panics, and `LineOrder.ReadsOwnExactly` that
  the levels read are the right ones exactly on lines that start the paragraph or show
  nothing; `LineOrder.LaterLineMisread` shows another.
* Rule W1 gives a mark after an isolate control the class of the control instead of ON.
  `MarksAfterControls.SameInTheEnd` says that this makes no difference in the end.
* Cells that share a hyperlink are meant to share it again after a round trip, with one copy
  of its URL sent (codec/src/lib.rs:1471-1478). A link that wraps is sent twice and comes
  back as two (`Hyperlinks.WrappedLinkSplits`): `Hyperlinks.SharingKeptExactly` and
  `Hyperlinks.SentOnceExactly` say that the promise is kept exactly if the cells of every
  link object are one stretch of one line.
* A whole frame whose payload deserializes to an early end of input is taken for an
  incomplete one (`FrameStream.WaitsExactly`, `FrameStream.ShortPayloadWaitsForever`).
* The layout checker never tries a divider on the first column or row of a box, which only
  a degenerate pane could need (`Layout.EmptyPaneRefused`, `Layout.AcceptsExactly`).

Where none of this happens on the way, a whole paragraph is as UAX #9 has it.
`Conformance.UaxResolved` puts the rules of UAX #9 together, in their own terms, and
`UaxOutcome.UaxHasOutcome` shows that they have an outcome; `Conformance.FollowsUax` says
that if no push is ignored, no initiator is unlinked or parted from anything but the
separator at the end, and no pair is lost, then the source gives the classes and levels of
that outcome.

What the passes are proved against is in turn pinned to the text it stands for, by class
names, positions and numbers: `PlainRules` has W1-W7, N0, N1 and N2 as conditions on what
stands before and after a character, `ExplicitRules` has X1-X9 as relations between states,
`ParagraphLevels` has P2, P3 and X5c by depth, `BracketRules` has BD16 by what still waits,
and `Base91Format` and `WireFormat` have the formats as numbers and groups of bits.

The mutable objects of the sources are classes here (`LevelStack`, `BidiContext`,
`BracketStack`, `RunIter`, `Base91Encoder`, `Base91Decoder`, `FrameBuffer`); their methods
are proved against functions and predicates on values, which the lemmas are about. A panic
is a result (`ok` is false), an error is a `Failure`. `NO_LEVEL` is -1, as in the source.

Modules, roughly in the order in which they build on each other: `BidiTypes`, `Reorder`,
`LineOrder` (L2); `ParagraphLevels` (P2, P3); `LevelStack`, `Explicit`, `ExplicitRules`,
`IgnoredPushes`, `Isolates` (X1-X9); `Runs`,
`Linking`, `Matching`, `Following`, `NextCharacter`, `OverflowedIsolates`, `SequenceEnds`
(X10); `TextChains`, `PlainRules`, `Weak`, `Terminators`, `Neutral`, `Brackets`, `BracketRules`,
`BracketOverflow`, `Rules`, `RuleMeanings` (W, N); `Resolution`, `Determined`, `Departures`, `MarksAfterControls`,
`ChainCores`, `Conformance`, `UaxOutcome`, `OverriddenIsolates`, `CutSequences` (the whole
paragraph); `Lines` (L1 and runs); `Context` (the class that holds a paragraph); `Bytes`,
`Base91`, `Base91Format`; `Bintree`, `TreeOrders`; `Leb128`, `Framing`, `WireFormat`,
`FrameStream`; `Hyperlinks`; `Layout`.

`dafny verify dfyconfig.toml` checks everything.

## Model

| member | source | states |
|---|---|---|
| Reorder.MirrorInvolution | bidi/src/lib.rs:381-428 | One pass of L2 at a level moves every position of a maximal stretch at or above that level to its mirror image, stays in the stretch, and undoes itself. |
| Reorder.PlaceInjective | bidi/src/lib.rs:340-432 | No two positions of a line end up in the same place, whatever passes are made. |
| Reorder.PlaceOnto | bidi/src/lib.rs:340-432 | Every place of the display is taken by some position. |
| Reorder.BlockPlaces | bidi/src/lib.rs:381-428 | The passes move a block of positions that all of them see alike as a block, mirrored as often as there were passes. |
| Reorder.HighPassesFix | bidi/src/lib.rs:340-360 | A position below all the levels passed stays where it is. |
| Reorder.PassesPermute | bidi/src/lib.rs:340-432 | The passes of L2 give a permutation: every index once, nothing else, nothing lost. |
| Reorder.RunShown | bidi/src/lib.rs:340-432 | A maximal run of one level is contiguous in the display, ascending or descending by the parity of the number of passes that reach it. |
| Reorder.PlaceOrder | bidi/src/lib.rs:381-428 | Two positions change sides once for every pass at or below the lowest level between them. |
| Reorder.PairOrdered | bidi/src/lib.rs:340-432 | Of any two characters the first is displayed first exactly if the lowest level from the one to the other, both included, is even. |
| Reorder.DisplayedUnique | bidi/src/lib.rs:340-432 | What section 3.4 of UAX #9 asks for, stated so, fixes the order: there is one. |
| Reorder.DisplayOrderCorrect | bidi/src/lib.rs:340-432 | On every line with an odd level, or without two neighbours at level 126, L2 gives the one permutation in which every maximal run of one level is contiguous, ascending if the level is even and descending if it is odd, and any two characters stand in the order that the lowest level between them asks for. |
| Reorder.DisplayOrderWrong | bidi/src/lib.rs:343-360 | On a line without an odd level and with two neighbours at level 126 the result of L2 is not what section 3.4 of UAX #9 asks for. |
| Reorder.DisplayOrderExact | bidi/src/lib.rs:340-432 | The two together: L2 does what section 3.4 of UAX #9 asks for if and only if the line has an odd level or no two neighbours at level 126. |
| Reorder.TopNeighboursReversed | bidi/src/lib.rs:343-344 | Two characters at level 126, as two Arabic numbers in 62 embeddings have them, come out reversed. |
| LineOrder.LevelRange | bidi/src/lib.rs:342-360 | The highest level, the lowest odd level (126 if there is none) and whether every character was removed, by one scan that skips the removed ones. |
| LineOrder.InitialOrder | bidi/src/lib.rs:362-371 | The index of every character of the line, counted from `first_cidx`, and a DELETED mark in the place of each removed one. |
| LineOrder.ReverseAtLevel | bidi/src/lib.rs:381-428 | One pass over the marked order, with a range that is never reset, has on the unmarked entries the effect of reversing every maximal stretch at or above the level. |
| LineOrder.ReverseHighToLow | bidi/src/lib.rs:376-429 | All passes from the highest level to the lowest odd one. |
| LineOrder.ReverseBetweenCuts | bidi/src/lib.rs:410-424 | Reversing between two places where the marked order splits the live entries reverses just those live entries. |
| LineOrder.ReverseLevels | bidi/src/lib.rs:340-432 | The returned order is the passes made on the live entries alone: removed entries in place, and dropped at the end, make no difference. |
| LineOrder.RemovedTransparent | bidi/src/lib.rs:340-432 | Removed controls are transparent to L2: the result is the display order of the live levels, told in paragraph indices. |
| LineOrder.ReorderedComplete | bidi/src/lib.rs:340-432 | Every index of the line that was not removed is displayed. |
| LineOrder.ReorderedSound | bidi/src/lib.rs:340-432 | Only indices of the line that were not removed are displayed. |
| LineOrder.LineDisplayed | bidi/src/lib.rs:340-432 | For a line with removed characters anywhere: its live characters are displayed as section 3.4 of UAX #9 asks for if and only if their levels have an odd one or no two neighbours at 126. |
| LineOrder.ReadsOwnExactly | bidi/src/lib.rs:236-247 | The level that `reordered_runs` reads for every displayed character is the character's own exactly on lines that start the paragraph, and on lines that show nothing. |
| LineOrder.LaterLineMisread | bidi/src/lib.rs:236-247 | A line of a character and a removed one that starts at 1: in range, but the level read is that of the removed one. |
| LineOrder.ReorderedIndexable | bidi/src/lib.rs:242-247 | Display indices stay within the levels of the line exactly when no live character is as far into the paragraph as the line is long; otherwise the source panics. |
| LevelStack.LevelStack.Push | bidi/src/level_stack.rs:35-51 | A push adds an entry on top, or changes nothing when 125 entries are there. |
| LevelStack.LevelStack.Pop | bidi/src/level_stack.rs:53-57 | A pop takes the top entry off, or changes nothing on an empty stack. |
| Explicit.LeastGreaterEven | bidi/src/level.rs:33-44 | The least even level above, if it is at most 125. |
| Explicit.LeastGreaterOdd | bidi/src/level.rs:46-57 | The least odd level above, if it is at most 125. |
| ParagraphLevels.ParagraphLevel | bidi/src/lib.rs:1846-1872 | P2 and P3: the level is 1 exactly if the first strong character that stands in no open isolate is R or AL, or there is none and the fallback is right to left. With `respect_pdi`: exactly if R or AL is the first strong character at depth 0 before a PDI that closes the text. |
| ParagraphLevels.MatchingByDepth | bidi/src/lib.rs:1846-1872 | BD9 by counting: the isolate is closed by the first PDI at which the initiators less the PDIs since leave none open. |
| ParagraphLevels.OpenOutside | bidi/src/lib.rs:1846-1872 | The count of the scan is 0 exactly where no initiator before is still open. |
| ParagraphLevels.LevelByDepth | bidi/src/lib.rs:1846-1872 | P2 and P3 by initiators that are still open: the level of a paragraph is 1 exactly if R or AL comes first outside all isolates, or no strong character does and the fallback is right to left. |
| ParagraphLevels.InsideLevelFrom | bidi/src/lib.rs:1414-1422 | X5c: the text after an FSI asks for level 1 exactly if some R or AL stands at depth 0 before the PDI that closes the isolate, and no L, R or AL at depth 0 before that. |
| Explicit.StepKeeps | bidi/src/lib.rs:1339-1488 | One character of X1-X8: stacked levels stay strictly increasing from the base and at most 125; `valid_isolate` is the number of isolate entries on the stack unless a push met a full one; and then the pop loop of X6a stops at an isolate entry. |
| Explicit.NeverFullAtBaseOne | bidi/src/level_stack.rs:35-39 | With base level 1 no push meets a full stack. |
| Explicit.NeverFullInUax | bidi/src/level_stack.rs:35-39 | With the max_depth+2 entries of section 3.3.2 of UAX #9 no push meets a full stack, whatever the base level. |
| Explicit.FullAtBaseZero | bidi/src/level_stack.rs:35-39 | With base level 0 a push meets a full stack exactly when it holds the levels 0 to 124, nothing has overflowed, and the character asks for a right-to-left level. |
| Explicit.RunKeeps | bidi/src/lib.rs:1322-1490 | The invariants hold after every character of every paragraph that makes no push on a full stack. |
| Explicit.BaseOneNeverFull | bidi/src/lib.rs:1322-1490 | No paragraph with base level 1 makes a push on a full stack, so the invariants hold there unconditionally. |
| Explicit.AgreesWithUax | bidi/src/lib.rs:1322-1490 | As long as no push meets a full stack the state is the one that section 3.3.2 of UAX #9 gives with its larger stack. |
| Explicit.FullPushParts | bidi/src/level_stack.rs:35-39 | At the first push on a full stack the state departs from the one of section 3.3.2 of UAX #9. |
| Explicit.FollowsUaxExactly | bidi/src/lib.rs:1322-1490 | The state follows section 3.3.2 of UAX #9 through the whole paragraph if and only if no push meets a full stack. |
| Explicit.OverfullPanics | bidi/src/lib.rs:1441-1460 | 124 embeddings, an isolate and its PDI: the isolate entry was not pushed but counted, and the pop loop runs off the stack. |
| IgnoredPushes.StepUncovers | bidi/src/lib.rs:1388-1460 | The isolates counted beyond those with a stack entry: one more for every isolate push that a full stack ignores, and the same after any other step. |
| IgnoredPushes.UncoveredAfter | bidi/src/lib.rs:1322-1490 | There is one exactly after some isolate initiator met a full stack. |
| IgnoredPushes.PanicsExactlyAt | bidi/src/lib.rs:1441-1460 | A run that has come to a character panics there exactly if it is a PDI, no isolate overflows, the stack has no isolate entry, and some earlier isolate initiator made a push on a full stack. |
| IgnoredPushes.PanicsExactly | bidi/src/lib.rs:1322-1490 | A paragraph panics exactly if it has such a character. |
| IgnoredPushes.OpenIsolateDoesNotPanic | bidi/src/lib.rs:1388-1400 | An ignored isolate push without the PDI does not panic. |
| Explicit.ExplainedUnique | bidi/src/lib.rs:1322-1507 | Classes and levels after X1-X9 depend on the paragraph and its base level alone, although `levels` is resized and not cleared. |
| ExplicitRules.FsiMeans | bidi/src/lib.rs:1414-1422 | X5c: an FSI is right to left exactly if R or AL is the first strong character of its isolate outside nested ones. |
| ExplicitRules.StepMeans | bidi/src/lib.rs:1339-1488 | X2-X8 for one character: the machine takes a step exactly if the rules, as relations by class names, overflow counters and the limit of 125, allow it. |
| ExplicitRules.ExplainedExactly | bidi/src/lib.rs:1322-1507 | X1-X9: a paragraph gets exactly the classes and levels that some sequence of states by those rules gives it. |
| Isolates.InsideIsolate | bidi/src/lib.rs:1388-1474 | Between an initiator and its matching PDI the stack keeps the entries it had, whatever overflows, pops and embeds in between. |
| Isolates.IsolateRestores | bidi/src/lib.rs:1388-1460 | After the matching PDI (BD9) the state is the one before the initiator: the same stack and the same counters. |
| Runs.SpanOneRun | bidi/src/lib.rs:1799-1841 | From a position on: one level past removed characters, up to and with an isolate initiator, up to the next level, or to the end. |
| Runs.FirstSignificantBidiClass | bidi/src/lib.rs:1764-1777 | The class of the first character of a run that was not removed. |
| Runs.TilingOrder | bidi/src/lib.rs:1510-1532 | Runs follow each other without overlap. |
| Runs.PartitionExact | bidi/src/lib.rs:1596-1645 | Every run is in exactly one sequence. |
| Runs.ChainIncreasing | bidi/src/lib.rs:1650-1657 | The positions of a sequence are strictly increasing. |
| Runs.SequencesDisjoint | bidi/src/lib.rs:1650-1657 | No position is in two sequences. |
| Runs.SequencesAreChains | bidi/src/lib.rs:1510-1700 | The text chains are increasing, disjoint, of one level each past removed characters, and hold every character that was not removed. |
| Linking.GreedyNext | bidi/src/lib.rs:1600-1642 | One more sequence: all are in the order of their first runs, and each goes on with the first free run that can continue it. |
| Matching.MatchInjective | bidi/src/lib.rs:1555-1588 | A PDI matches one initiator (BD9). |
| Matching.MatchByDepth | bidi/src/lib.rs:1846-1872 | BD9 by depth: the matching PDI of an initiator is the first at which as many isolates have been closed as opened after it. |
| Matching.OpenToMatch | bidi/src/lib.rs:1846-1872 | An isolate stays open exactly up to its matching PDI, or to the end. |
| Matching.InsideUnder | bidi/src/lib.rs:1388-1474 | Up to its matching PDI an isolate keeps an entry of its own on the stack, whatever overflows inside, unless it overflows itself; then the stack stays as it was. |
| Matching.Deeper | bidi/src/lib.rs:1322-1490 | Every level between an initiator that does not overflow and its matching PDI, or the end of the paragraph, is higher than the level of the initiator, but for paragraph separators, which have the base level. |
| Matching.AsDeep | bidi/src/lib.rs:1322-1490 | Every level between one that overflows and its matching PDI, or the end, is the same, but for paragraph separators, and nothing there is overridden unless the initiator is. |
| Matching.MatchLevel | bidi/src/lib.rs:1388-1460 | The matching PDI has the level of the initiator, and is overridden if that is. |
| Linking.TakenBy | bidi/src/lib.rs:1621-1640 | A run that a sequence passes over continues an earlier one. |
| Following.NextIsMatch | bidi/src/lib.rs:1555-1645 | Where no isolate is astray, the k-th run of a sequence is followed by the run that starts with the PDI matching the initiator it ends in, if there is one; otherwise the sequence ends. |
| Following.AstrayBreaks | bidi/src/lib.rs:1619-1640 | Where one is, some run of some sequence is not followed so. |
| Following.FollowsExactly | bidi/src/lib.rs:1555-1645 | BD13, for every paragraph in which no push is ignored, as far as initiators are concerned that are not overridden: the linking follows it if and only if no isolate overflows, is not overridden, and either has a character left between itself and its matching PDI or has none although a later initiator is directly followed by its PDI. |
| NextCharacter.RunNextInChain | bidi/src/lib.rs:1650-1657 | What follows a character in its chain is the next one of its run, or the first one of the next run. |
| NextCharacter.ByDefinitionExactly | bidi/src/lib.rs:1510-1657 | Character by character: every chain goes on as BD7 and BD13 have it, with the next character of the same level, or else, after an initiator, overridden or not, its matching PDI, if and only if no initiator that is not overridden stands before a character of its level other than that PDI, and no overridden one with a matching PDI before a character of another level. |
| NextCharacter.PartedOnlyBy | bidi/src/lib.rs:1799-1841 | An initiator that is not overridden and stands before a character of its level other than its matching PDI overflows, or the character is the separator at the end of the paragraph. |
| SequenceEnds.EndsByCharacters | bidi/src/lib.rs:1538-1700 | X10 by characters: `sos` is R exactly if the higher of the level of the sequence and that of the nearest character before its first one, the base level if there is none, is odd, and L otherwise; `eos` likewise by the one after its last, or by the base level if that is an initiator that nothing continues. |
| BidiTypes.HigherDecides | bidi/src/level.rs:8-23 | An even level stands for left to right and L, an odd one for right to left and R; where two levels meet the class is R exactly if the higher one is odd. |
| OverflowedIsolates.OverflowJoinsWrongly | bidi/src/lib.rs:1619-1640 | Where an isolate overflows the linking departs from BD13: after 62 embeddings, an overflowed isolate is continued by the PDI of a later one, past its own. |
| OverflowedIsolates.ClashAstray | bidi/src/lib.rs:1619-1640 | The isolate of that paragraph is astray. |
| Weak.ResolveCombiningMarks | bidi/src/lib.rs:526-537 | In place, on a chain with removed characters: the classes that W1 gives simultaneously. A mark takes the class of the nearest character before it that is no mark, or `sos`; nothing else changes. |
| Weak.ResolveEuropeanNumbers | bidi/src/lib.rs:550-579 | In place: the classes that W2 gives simultaneously, although the backward search reads classes that earlier steps wrote. EN becomes AN exactly if AL stands before it with no L, R or AL between; nothing else changes. |
| Weak.ResolveArabicLetters | bidi/src/lib.rs:588-596 | In place: every Arabic letter becomes R and nothing else changes, as W3 gives simultaneously. |
| Weak.IsPriorContext | bidi/src/lib.rs:602-620 | Whether the nearest character before that was not removed has the class. |
| Weak.IsFollowingContext | bidi/src/lib.rs:626-641 | Whether the nearest character after that was not removed has the class. |
| Weak.ResolveSeparators | bidi/src/lib.rs:661-681 | In place: the classes that W4 gives simultaneously, although a separator just changed is the left neighbour of the next character. ES or CS between two EN becomes EN, CS between two AN becomes AN, past removed characters; nothing else changes. |
| Weak.SeparatorBefore | bidi/src/lib.rs:661-681 | A separator just changed by W4 is never the left neighbour that the next separator needs: in place is simultaneous. |
| Weak.ResolveEsCsEt | bidi/src/lib.rs:735-748 | In place: ES, CS and ET become ON and nothing else changes, as W6 gives simultaneously. |
| Weak.ResolveEn | bidi/src/lib.rs:758-783 | In place: the classes that W7 gives simultaneously, although European numbers before have just become L. EN becomes L exactly if the last L or R before it, or `sos` if there is none, is L. |
| Terminators.FillBack | bidi/src/lib.rs:706-713 | From a European number backwards: the terminators up to the nearest other live class. |
| Terminators.FillForward | bidi/src/lib.rs:714-721 | From a European number forwards: the terminators up to the nearest other live class. |
| Terminators.SettledIsW5 | bidi/src/lib.rs:703-724 | When all numbers have been seen, exactly the terminators next to a number, through other terminators, have changed: W5. |
| Terminators.ResolveTerminators | bidi/src/lib.rs:703-724 | The in-place W5 with its inner loops both ways equals the simultaneous rule, although numbers it has just made start fills of their own. ET becomes EN exactly if only ET stands between it and EN, before or after it. |
| Neutral.IsPriorContext | bidi/src/lib.rs:1076-1102 | Looking back past neutrals and removed characters finds the side that N1 means, `sot` at the start; the copy for the right side is the same. |
| Neutral.IsFollowingContext | bidi/src/lib.rs:1106-1135 | Looking ahead past neutrals and removed characters finds the side that N1 means, `eot` at the end. |
| Neutral.LooksFindN1 | bidi/src/lib.rs:1041-1071 | Both looks together decide N1, although what is behind was already changed. |
| Neutral.ResolveNeutralsByContext | bidi/src/lib.rs:1041-1071 | The in-place N1 equals the simultaneous rule: B, S, WS, ON and isolate controls become L between L and L, and R between classes of R, EN and AN, with `sos` and `eos` at the ends; nothing else changes. |
| Neutral.ResolveNeutralsByLevel | bidi/src/lib.rs:1198-1206 | The in-place N2 equals the simultaneous rule: a neutral becomes R if the level of its sequence is odd and L if it is even; nothing else changes. |
| Weak.W1Means | bidi/src/lib.rs:526-537 | W1 by the text: what each character of a sequence, removed ones included, becomes. |
| Weak.W2Means | bidi/src/lib.rs:550-579 | W2 by the text: EN becomes AN exactly after AL with no L, R or AL between. |
| Weak.W3Means | bidi/src/lib.rs:588-596 | W3 by the text. |
| Weak.W4Means | bidi/src/lib.rs:661-681 | W4 by the text: by the nearest kept characters on both sides. |
| Weak.W5Means | bidi/src/lib.rs:703-724 | W5 by the text: by the nearest kept character that is no ET on either side. |
| Weak.W6Means | bidi/src/lib.rs:735-748 | W6 by the text. |
| Weak.W7Means | bidi/src/lib.rs:758-783 | W7 by the text: by the last L or R before, or `sos`. |
| Neutral.N1Means | bidi/src/lib.rs:1041-1071 | N1 by the text: by the nearest classes on both sides that are no neutrals. |
| Neutral.N2Means | bidi/src/lib.rs:1198-1206 | N2 by the text: by the parity of the level. |
| RuleMeanings.StepsUnique | bidi/src/lib.rs:479-500 | Each of W1-W7, N1 and N2 gives exactly the classes that its condition on the text asks for. |
| RuleMeanings.WeakenedExactly | bidi/src/lib.rs:479-492 | W1 to W7 in this order: what the passes make of a sequence is what seven steps by conditions on the text lead to, and nothing else. |
| RuleMeanings.NeutralizedExactly | bidi/src/lib.rs:495-500 | N1 and then N2: the same. |
| RuleMeanings.UaxWeakenedExactly | bidi/src/lib.rs:526-537 | The same for W1-W7 with W1 as UAX #9 has it, which gives ON after an isolate control. |
| Brackets.PairStepKeeps | bidi/src/lib.rs:815-840 | One character of BD16: waiting openers stay at increasing positions, at most 63 of them, and the pairs so far never cross, never share an end, join an opener to a later closer that fits it, and leave every waiting opener outside. |
| Brackets.CollectPairs | bidi/src/lib.rs:815-840 | So for every text: the pairs of BD16 join fitting brackets, all their ends are distinct, and any two are nested or disjoint. |
| Brackets.BracketStack.Push | bidi/src/lib.rs:1919-1946 | An opener waits on top, or the push is refused with 63 waiting. |
| Brackets.BracketStack.SeekMatchingOpenBracket | bidi/src/lib.rs:1948-1980 | The topmost opener that fits pairs with the closer, and it and all above it stop waiting; otherwise nothing changes. |
| Brackets.SetBracketPairBc | bidi/src/lib.rs:877-943 | Both brackets, and the combining marks that follow each, past removed characters, take the direction; nothing else does. |
| Brackets.ResolveOnePair | bidi/src/lib.rs:952-1025 | N0 b-d by positions and classes: a class of the embedding direction between the brackets decides; else, if one of the other direction stands there, the nearest class before the opener that is no neutral, or `sos`, decides between the two; else nothing. EN and AN count as R. The brackets take the class, and with them the marks right after each, past removed characters. |
| Brackets.PairSideMeans | bidi/src/lib.rs:952-1025 | The side a pair takes, by what stands between the brackets and before them. |
| Brackets.FollowsMeans | bidi/src/lib.rs:877-943 | What changes with a pair, by original classes: the brackets, and the marks after each up to the first kept character that is no mark. |
| BracketRules.PairsExactly | bidi/src/lib.rs:1948-1980 | BD16: a closing bracket pairs exactly with the last opening one before it that fits and still waits, one that no earlier pair begins at or encloses; U+232A and U+3009 stand for each other. |
| BracketRules.PairsDetermined | bidi/src/lib.rs:1948-1980 | That leaves no choice: only one set of pairs is like that. |
| BracketRules.OverflowExactly | bidi/src/lib.rs:1919-1946 | A sequence overflows exactly if an opening bracket comes while 63 wait. |
| BracketRules.MarkMeans | bidi/src/lib.rs:813-831 | BD14 and BD15: a character takes part exactly if the table has it and its class is still ON; an opening bracket waits for its partner. |
| BracketRules.PairsMean | bidi/src/lib.rs:846-855 | The pairs of a sequence one after the other: each is resolved by the text that the one before left. |
| Brackets.SortUnique | bidi/src/lib.rs:840-844 | Sorting the pairs by their openers has one result, as no two openers are the same. |
| Brackets.ResolvePairedBrackets | bidi/src/lib.rs:804-855 | Sequence after sequence, pair after pair in the order of the openers; the first sequence with more than 63 waiting openers ends the pass. |
| BracketOverflow.SideIfEncloses | bidi/src/lib.rs:952-1025 | A pair takes a side exactly if it encloses a strong character or number. |
| BracketOverflow.OneEffect | bidi/src/lib.rs:813-854 | Resolving the pairs of one sequence changes nothing outside it, and nothing at all exactly if no pair encloses a strong character or number. |
| BracketOverflow.StepLocal | bidi/src/lib.rs:813-854 | N0 for a sequence depends on the classes of that sequence alone. |
| BracketOverflow.AlikeBefore | bidi/src/lib.rs:813-854 | As long as no sequence overflows, N0 in order is N0 for every sequence on its own. |
| BracketOverflow.StopsAt | bidi/src/lib.rs:821-824 | N0 is the rule for every sequence on its own up to the first one that overflows, and changes nothing from there on. |
| BracketOverflow.EachHasOutcome | bidi/src/lib.rs:797-803 | N0 for every sequence on its own, where a sequence that overflows keeps the pairs found before, as BD16 has it, always has an outcome. |
| BracketOverflow.StopsTooEarlyExactly | bidi/src/lib.rs:797-855 | N0 as the source has it differs from that if and only if some sequence overflows and it, before it overflows, or a later one has a pair that encloses a strong character or number. |
| BracketOverflow.CrowdedStays | bidi/src/lib.rs:819-824 | 64 openers, and a letter in brackets in a later sequence: N0 leaves everything as it is, and the rule for each sequence does not. |
| BracketOverflow.LetterStays | bidi/src/lib.rs:819-824 | A letter in brackets, and 64 openers after it in the same sequence: N0 leaves everything as it is, and the rule does not. |
| MarksAfterControls.WeakenedAlike | bidi/src/lib.rs:526-537 | With ON for marks after isolate controls W1-W7 give the same classes, up to controls against ON. |
| MarksAfterControls.SameInTheEnd | bidi/src/lib.rs:479-500 | After N2 the classes are the same as with W1 of UAX #9, if no mark and no isolate control is a bracket. |
| Rules.RunAll | bidi/src/lib.rs:479-500 | The outer loop of every pass applies its rule to every sequence, and to nothing outside, as the sequences are disjoint. |
| Rules.ApplyClasses | bidi/src/lib.rs:479-500 | Which classes a rule can leave, given those it starts from. |
| Rules.RunWeak | bidi/src/lib.rs:479-492 | W1-W7 in a row leave only L, R, EN, AN and neutrals. |
| Rules.RunNeutral | bidi/src/lib.rs:497-500 | N1 and N2 leave only L, R, EN and AN. |
| Resolution.ExplainedInert | bidi/src/lib.rs:1493-1507 | After X9 exactly the format characters are removed, and every other level is between the base and 125. |
| Resolution.ResolvedLevels | bidi/src/lib.rs:455-504 | In a resolved paragraph every character that was not removed is L, R, EN or AN. A number has the least even level above its explicit level, L the least even level from it up, R the least odd one; none is above 126. |
| Resolution.ImplicitParity | bidi/src/lib.rs:1209-1241 | I1 and I2: the new level has the direction of the class, and is at most 2 higher. |
| Resolution.ImplicitMeans | bidi/src/lib.rs:1209-1241 | I1 and I2: a number goes to the least even level above, L to the least even level from its own up, R to the least odd one. |
| Determined.SpanUnique | bidi/src/lib.rs:1799-1841 | From one start there is one level run. |
| Determined.RunsUnique | bidi/src/lib.rs:1510-1553 | There is one way to cut a paragraph into level runs, ends included. |
| Determined.IdsUnique | bidi/src/lib.rs:1596-1641 | There is one way to give the runs the ids of their sequences. |
| Determined.SequencesUnique | bidi/src/lib.rs:1596-1700 | The isolating run sequences, with `sos`, `eos` and their positions, follow from classes, levels and base level. |
| Determined.BracketRuleUnique | bidi/src/lib.rs:804-855 | N0 has one outcome. |
| Determined.ResolvedUnique | bidi/src/lib.rs:455-504 | Classes and levels of a resolved paragraph follow from the paragraph, its base level and the bracket table: a context that was used before gives what a new one gives. |
| Departures.ResolvedSequences | bidi/src/lib.rs:455-504 | For every resolved paragraph in which no push is ignored: its sequences follow BD13 run by run exactly if no isolate is astray, and BD7 and BD13 character by character exactly if no initiator is parted from what follows it, or unlinked from its matching PDI because it is overridden. |
| Departures.ResolvedPairs | bidi/src/lib.rs:455-504 | For every resolved paragraph: its bracket pairs are those that N0 and BD16 give every sequence on its own exactly if none is lost to an overflow. |
| ChainCores.LiveCore | bidi/src/lib.rs:1493-1507 | The classes of a chain are those of its core, which has neither removed characters nor the separator at the end, and that of the separator. |
| ChainCores.CollectMapped | bidi/src/lib.rs:815-840 | BD16 finds in the chain, told in places of the core, the pairs that it finds in the core, and overflows where it does. |
| ChainCores.StepOfCore | bidi/src/lib.rs:813-854 | N0 on the core of a chain is N0 on the chain: removed characters and the separator make no difference to brackets and the marks that follow them. |
| ChainCores.NeutralizedAppend | bidi/src/lib.rs:1041-1206 | A separator at the end, where `eos` has the direction of the level, takes that direction and changes nothing else in N1 and N2. |
| ChainCores.EosIrrelevant | bidi/src/lib.rs:1106-1135 | Where the last character is not neutral `eos` makes no difference. |
| Conformance.ExplainedAsUax | bidi/src/lib.rs:1322-1507 | With room on the stack the classes and levels after X1-X9 are those of UAX #9 with its larger stack. |
| Conformance.SameCores | bidi/src/lib.rs:1596-1657 | Two gatherings of a paragraph that go on alike from every character have the same sequences, apart from removed characters and the separator. |
| Conformance.EndsAgree | bidi/src/lib.rs:1684-1700 | The sequence of the source and the one of UAX #9 that a character is in have the same level and `sos`, and the same `eos` unless their last character is strong. |
| Conformance.SeparatorInBoth | bidi/src/lib.rs:1799-1841 | They both hold the separator at the end of the paragraph, or neither does, unless it follows an initiator. |
| Conformance.WeakAlike | bidi/src/lib.rs:479-492 | After W1-W7 the source, on its sequences, and UAX #9, on its own, have the same classes, up to isolate controls against ON. |
| Conformance.ClassesSame | bidi/src/lib.rs:497-500 | After N1 and N2 they have the same classes. |
| Conformance.FollowsUax | bidi/src/lib.rs:455-504 | A whole paragraph: if no push is ignored, no initiator is unlinked or parted from anything but the separator at the end, no pair is lost to an overflow, and no mark or isolate control is a bracket, then the classes and levels of the source are those of UAX #9. |
| Conformance.PlainIsolates | bidi/src/lib.rs:1596-1657 | Its conditions on initiators hold of every paragraph in which no isolate overflows or is overridden. |
| UaxOutcome.NextInjective | bidi/src/lib.rs:1555-1588 | By BD7 and BD13 no character follows two others. |
| UaxOutcome.SequencesExist | bidi/src/lib.rs:1555-1588 | So a paragraph with room on the stack has isolating run sequences in the sense of BD13 and X10. |
| UaxOutcome.UaxHasOutcome | bidi/src/lib.rs:455-504 | And the rules of UAX #9, put together in their own terms, have an outcome for it. |
| OverriddenIsolates.UnlinkedHarmless | bidi/src/lib.rs:1684-1700 | A sequence may be cut between two strong characters, whatever directions stand at the cut, without a change in what W1-W7, N1 and N2 give. |
| OverriddenIsolates.UnlinkedMeet | bidi/src/lib.rs:1388-1474 | An overridden initiator and its matching PDI have one level and the same strong class. |
| CutSequences.SideBySide | bidi/src/lib.rs:815-840 | BD16 on a sequence that is cut in two: what it finds in the parts, side by side, or else a pair that reaches over the cut from an opener that still waits there. |
| CutSequences.CutExactly | bidi/src/lib.rs:813-854 | N0 on the two parts of a sequence that is cut between strong characters gives what N0 on the whole gives if and only if no pair of the whole reaches over the cut, if the whole does not overflow and no mark is a bracket. |
| CutSequences.CutKeepsClasses | bidi/src/lib.rs:1041-1206 | Then N1 and N2 give the parts the classes that they give the whole. |
| OverriddenIsolates.PairReachesOver | bidi/src/lib.rs:1596-1641 | LRE R ( R PDF LRO RLI a PDI PDF LRE ): UAX #9 makes the brackets a pair and gives them the class L; the source, which does not link the overridden isolate, has them in two sequences and gives the first the class R. |
| Context.BidiContext.PopIsolate | bidi/src/lib.rs:1448-1454 | The loop of X6a pops down to and with the topmost isolate entry; it fails exactly if there is none. |
| Context.BidiContext.EmbedCharacter | bidi/src/lib.rs:1339-1488 | X2-X8 for one character: the next state, and the class and level the character gets, by the machine and by the rules X2-X9 as relations between the states before and after. |
| Context.BidiContext.IsolateDirection | bidi/src/lib.rs:1414-1422 | X5c: right to left exactly for an FSI in whose isolate R or AL is the first strong character outside nested isolates. |
| Context.BidiContext.BaseLevelFor | bidi/src/lib.rs:460-470 | The base level of a hint: 0, 1, or by P2 and P3 with the direction of the hint as fallback. |
| Context.BidiContext.ExplicitEmbeddingLevels | bidi/src/lib.rs:1322-1490 | X1-X8 for the paragraph, or the panic of the pop loop exactly when a PDI finds no isolate entry for a counted isolate. |
| Context.BidiContext.DeleteFormatCharacters | bidi/src/lib.rs:1493-1507 | X9: the levels of the format characters are removed, and all that an earlier paragraph may have left in `levels` is gone. |
| Context.BidiContext.IdentifyRuns | bidi/src/lib.rs:1510-1536 | The level runs tile the paragraph up to a tail of removed characters, with the directions of X10 at their ends. |
| Context.BidiContext.CalculateSorEor | bidi/src/lib.rs:1538-1553 | Each end of a run is R exactly if the higher of the two levels that meet there is odd, with the base level outside the paragraph, and L otherwise. |
| Context.BidiContext.GatherRuns | bidi/src/lib.rs:1596-1641 | Every run is in one sequence, each linked to the next, and each sequence goes on with the first free run that fits. |
| Context.BidiContext.ExtendSequence | bidi/src/lib.rs:1619-1640 | The look-ahead: from an initiator on to the next free run of the same level that starts with a PDI, until one does not end in an initiator. |
| Context.BidiContext.CalculateSosEos | bidi/src/lib.rs:1684-1700 | A sequence has the directions of its outer ends; after an initiator that nothing continues, R exactly if the higher of its level and the base level is odd. |
| Context.BidiContext.IdentifyIsolatingRunSequences | bidi/src/lib.rs:1596-1657 | The sequences partition the runs, each going on with the first free run that fits, with the directions of X10 at their ends and the positions of all their runs. |
| Context.BidiContext.ResolveImplicitLevels | bidi/src/lib.rs:1209-1241 | I1 and I2 at every position that was not removed: EN and AN go to the least even level above, L to the least even level from its own up, R to the least odd one; nothing else changes. |
| Context.BidiContext.Resolve | bidi/src/lib.rs:455-504 | All passes in order: every stage follows from the one before by its rules, for every old content of the context; it panics exactly when a PDI finds no isolate entry for a counted isolate. |
| Context.BidiContext.ResolveParagraph | bidi/src/lib.rs:435-447 | The classes of the characters, then all passes; nothing is asked of the text or of what the context held before. |
| Context.BidiContext.SetCharTypes | bidi/src/lib.rs:449-453 | The given classes, then all passes but N0. |
| Context.BidiContext.AllRuns | bidi/src/lib.rs:215-221 | The maximal runs of one level of the paragraph. |
| Context.BidiContext.ReorderLine | bidi/src/lib.rs:277-287 | L1 on the levels of the line, then L2. |
| Context.BidiContext.LineRuns | bidi/src/lib.rs:226-234 | The maximal runs of one level of the line. |
| Context.BidiContext.ReorderedRuns | bidi/src/lib.rs:236-275 | The displayed indices in order, cut where the levels read for them change, each run with the hull of its indices; a panic exactly when an index is out of range; on lines that start the paragraph every run has the level of its characters. |
| Lines.ResetWhitespaceLevels | bidi/src/lib.rs:1266-1319 | L1 by original classes: S and B, and WS and isolate controls from which only such and removed classes lead to S, B or the end of the line, go back to the base level; no other level changes. |
| Lines.SpanLen | bidi/src/lib.rs:186-194 | The length of the maximal span of one level. |
| Lines.RunIter.Next | bidi/src/lib.rs:136-169 | The next maximal run of one level; only removed characters lie in between, none inside, so `removed_by_x9` is empty. |
| Lines.CollectRuns | bidi/src/lib.rs:136-169 | All runs: maximal, in order, holding exactly the characters that were not removed. |
| Lines.Indices | bidi/src/lib.rs:102-128 | The positions of a run that are not listed as removed, in order. |
| Lines.IndicesAreWhole | bidi/src/lib.rs:79-83 | No run has a removed character in its middle: `indices` is always the whole range, which answers the question in the comment. |
| Lines.SplitRuns | bidi/src/lib.rs:250-272 | The displayed indices in order, cut where the levels beside them change, each run with its direction and the hull of its indices. |
| Lines.CutDisplays | bidi/src/lib.rs:250-272 | Where every level read is the character's own, each run has the level of all its characters. |
| Base91.TablesInverse | base91/src/lib.rs:38-58 | The decoding table undoes the encoding table. |
| Base91.TablesInverseBack | base91/src/lib.rs:38-58 | The encoding table undoes the decoding table on its 91 characters. |
| Base91.OrIsPlus | base91/src/lib.rs:91 | Setting the bits of a byte above those held is adding it. |
| Base91.OrIsPlusValue | base91/src/lib.rs:187 | Setting the bits of a decoded value above those held is adding it. |
| Base91.OrIsPlusByte | base91/src/lib.rs:210 | Setting the bits of a last character above those held is adding it, cut to a byte. |
| Base91.EncByteOk | base91/src/lib.rs:89-115 | Between bytes the encoder holds at most 13 bits, and its accumulator is below 2 to that power. |
| Base91.DecAllOk | base91/src/lib.rs:176-206 | Between values the decoder holds less than a byte, whatever it is fed. |
| Base91.EncAllSplit | base91/src/lib.rs:89-115 | Encoding in two writes is encoding in one. |
| Base91.DecAllSplit | base91/src/lib.rs:176-206 | Decoding in two writes is decoding in one. |
| Base91.StepInStep | base91/src/lib.rs:89-206 | One more byte: decoding what the encoder has written keeps giving a prefix of the bytes, and what the two hold adds up to the rest. |
| Base91.TailDecodes | base91/src/lib.rs:117-132 | The one or two characters of the flush decode to the bytes still held, with nothing spurious, whatever the odd bits. |
| Base91.RoundTrip | base91/src/lib.rs:136-229 | decode(encode(b)) = b for every byte string b. |
| Base91.ForeignBytesIgnored | base91/src/lib.rs:179-183 | Bytes outside the alphabet, anywhere in the text, change nothing. |
| Base91.SizeBounds | base91/src/lib.rs:4-6 | For n bytes the L characters satisfy 8n <= 7L and 13L <= 16n + 12: the overhead is between 14% and 23%. |
| Base91Format.AlphabetTables | base91/src/lib.rs:38-58 | The encoding table is the alphabet in its order, and the decoding table gives the place of each character in it. |
| Base91Format.OthersSkipped | base91/src/lib.rs:40-58 | The decoding table marks exactly the bytes that are not in the alphabet. |
| Base91Format.EncodedIsSpelled | base91/src/lib.rs:89-132 | The format: the bytes are one number, least significant first; values of 13 bits, or 14 if 13 bits are 88 at most, are taken from its low end and written low digit first, and up to 13 bits are left for one or two last characters. The encoder writes exactly that text. |
| Base91.Base91Encoder.Write | base91/src/lib.rs:89-115 | The new state of encoder and writer is that of encoding the bytes one after the other; if the writer fails, it holds a beginning of what that writes. |
| Base91.Base91Encoder.Flush | base91/src/lib.rs:117-132 | The held bits are written as one or two characters and forgotten; if the writer fails, it holds a beginning of that. |
| Base91.Base91Decoder.Write | base91/src/lib.rs:176-206 | The new state of decoder and writer is that of decoding the characters one after the other; if the writer fails, it holds a beginning of what that writes. |
| Base91.Base91Decoder.Flush | base91/src/lib.rs:208-216 | A first character without a second gives one more byte, or the writer fails. |
| Base91.EncodeChunks | base91/src/lib.rs:136-144 | For any split of the bytes into writes before one flush: the encoding of all of them. |
| Base91.DecodeChunks | base91/src/lib.rs:221-229 | For any split of the characters into writes before one flush: the decoding of all of them. |
| Bintree.ProperAnywhere | bintree/src/lib.rs:11-15 | A cursor stands in a proper tree exactly if the tree it stands for is proper: full nodes, Empty only as a lone root. |
| Bintree.LeavesAround | bintree/src/lib.rs:120-129 | The leaves of the tree are those before the cursor, under it and after it. |
| Bintree.NumLeaves | bintree/src/lib.rs:193-199 | The number of leaves in left-to-right order. |
| Bintree.MovesKeepTree | bintree/src/lib.rs:402-462 | Moves stay in the same tree, and going up undoes going down. |
| Bintree.ToTree | bintree/src/lib.rs:547-554 | The loop of `tree` gives the tree the cursor stands for. |
| Bintree.SplitsInsertOne | bintree/src/lib.rs:324-394 | Each split puts exactly one leaf next to the leaves under the cursor, on the side it names. |
| Bintree.UnsplitRemovesOne | bintree/src/lib.rs:301-322 | `unsplit_leaf` succeeds exactly on a leaf that is not the root, and takes exactly that leaf out. |
| Bintree.SplitUnsplit | bintree/src/lib.rs:301-394 | Splitting and unsplitting the new leaf restores the cursor. |
| Bintree.ReachableProper | bintree/src/lib.rs:242-462 | Whatever operations follow each other from an empty cursor on, the tree is proper. |
| Bintree.PreorderNext | bintree/src/lib.rs:472-496 | On to the node that preorder has next; after the last one back to the root, with `Err`. The tree stays the same. |
| Bintree.PostorderNext | bintree/src/lib.rs:506-530 | Back to the node that left-right-node postorder has before; before the first one back to the root, with `Err`. The tree stays the same. |
| Bintree.PreorderIsAll | bintree/src/lib.rs:464-496 | Preorder from the root has every position of the tree, each exactly once. |
| Bintree.PostorderSameNodes | bintree/src/lib.rs:498-530 | Postorder has the same positions, as often. |
| TreeOrders.PreOrdered | bintree/src/lib.rs:464-496 | In preorder a position comes before all below it, and before all to its right. |
| TreeOrders.PostOrdered | bintree/src/lib.rs:498-530 | In postorder a position comes after all below it, and before all to its right. |
| Bintree.PreorderWalk | bintree/src/lib.rs:472-496 | Iterating `preorder_next` from the root until it fails visits the preorder and ends at the root. |
| Bintree.PostorderWalk | bintree/src/lib.rs:506-530 | Iterating `postorder_next` from the root until it fails visits the postorder backwards and ends at the root. |
| Bintree.GoToNthLeaf | bintree/src/lib.rs:533-544 | From any position: the leaf with n leaves between, if there are that many, else the root. |
| Bintree.NthLeafFromRoot | bintree/src/lib.rs:533-544 | From the root the leaf found has exactly n leaves to its left. |
| Leb128.ReadsBack | codec/src/lib.rs:52-65 | A 64-bit value reads back from its LEB128 encoding, whatever follows. |
| Leb128.ReadNeedsAll | codec/src/lib.rs:146-159 | The reader decides at exactly the byte where it stops, and more bytes do not change its mind. |
| Leb128.LebShortest | codec/src/lib.rs:52-65 | No other bytes of the length of the encoding, and no shorter ones, read as the value. |
| Leb128.Stream.ReadU64Async | codec/src/lib.rs:134-160 | Starting over on every byte returns and consumes what the synchronous reader does, for values, overlong numbers and early ends. |
| Framing.MaskTests | codec/src/lib.rs:257 | The compression mark is the top bit. |
| Framing.MaskSets | codec/src/lib.rs:76-80 | Setting the compression mark adds it to the length. |
| Framing.MaskClears | codec/src/lib.rs:257-261 | Clearing the compression mark subtracts it. |
| Framing.EncodeRawAsVec | codec/src/lib.rs:69-99 | The buffer is the masked length of the rest, the serial, the identifier and the data. |
| Framing.DecodeRaw | codec/src/lib.rs:255-310 | The frame in front and what it consumes, or the error of the first field that fails. |
| Framing.DecodeRawAsync | codec/src/lib.rs:181-251 | The frame in front and what it consumes, or the error of the first field that fails, through the asynchronous reader and with the limit on serials. |
| Framing.FrameReadsBack | codec/src/lib.rs:69-310 | A frame reads back from whatever begins with its encoding, exactly if its payload is within MAX_PDU_SIZE; above, it is refused for that. |
| Framing.OversizeRefusedEarly | codec/src/lib.rs:279-288 | An oversized frame is refused with its header, before any payload is there. |
| Framing.SerialLimit | codec/src/lib.rs:196-204 | A limit on serials refuses exactly the frames with a greater serial. |
| Framing.DecodeStable | codec/src/lib.rs:255-310 | A decision other than "more bytes needed" is not changed by more bytes. |
| Framing.PrefixIsEof | codec/src/lib.rs:255-310 | A proper prefix of a frame is neither a frame nor an error. |
| Framing.DecodedIsShortest | codec/src/lib.rs:69-310 | A decoded frame took at least its encoding, and just that only from its encoding. |
| WireFormat.ReadMeans | codec/src/lib.rs:134-168 | A number ends at its first byte below 128, has at most ten bytes and 64 bits, and is the sum of its groups of seven bits, each worth 128 times the one before; without such a byte there is none yet. |
| WireFormat.LebMeans | codec/src/lib.rs:52-65 | What is written is the one sequence of groups with that sum whose last group is not zero, a lone one aside. |
| WireFormat.EncodingMeans | codec/src/lib.rs:101-106 | A frame is a length, a serial, an identifier and the data, in this order; the length counts the three others and has bit 63 set if the data is compressed. |
| WireFormat.FrameRead | codec/src/lib.rs:222-289 | Such a frame reads back if its data has at most 67108864 bytes, and is refused if it has more. |
| WireFormat.DecodeMeans | codec/src/lib.rs:181-310 | What becomes of three numbers and what follows them: a serial beyond the limit is refused, then a length below that of the shortest serial and identifier, then more than 67108864 bytes of data; then the data must be there. |
| FrameStream.FrameBuffer.StreamDecode | codec/src/lib.rs:621-654 | A decoded frame leaves the buffer, which keeps the unread suffix; otherwise the buffer is as before. |
| FrameStream.FrameBuffer.TryReadAndDecode | codec/src/lib.rs:656-684 | Read into the buffer until it starts with a frame, the connection would block, fails or ends. |
| FrameStream.OneCall | codec/src/lib.rs:656-684 | One call yields the frame in front of everything still to come, however little of it was there, or loses nothing. |
| FrameStream.ChunkingDoesNotMatter | codec/src/lib.rs:656-684 | Calling until an error: any bytes, in any pieces, with any waits, give the frames that they give as a whole, then the same error, and the buffer holds what is unread. |
| FrameStream.FramesArrive | codec/src/lib.rs:621-684 | Frames sent one after the other, and part of one more, arrive as exactly those frames in order, however they are cut up, and the part stays in the buffer. |
| FrameStream.WaitsExactly | codec/src/lib.rs:639-653 | No frame and no error: exactly when the frame in front is incomplete or its payload ends early. |
| FrameStream.ShortPayloadWaitsForever | codec/src/lib.rs:639-653 | With a whole frame whose payload ends early no further bytes help: calls wait until reading ends, and the buffer keeps everything. |
| Hyperlinks.RunCloses | codec/src/lib.rs:1539-1574 | A streak that ends is a maximal run of one link. |
| Hyperlinks.TakeOut | codec/src/lib.rs:1521-1600 | One line: its cells without links and images, its maximal same-link runs in order, its images from left to right. |
| Hyperlinks.Serialize | codec/src/lib.rs:1516-1609 | All lines: bare cells, the maximal same-link runs of every line in order and disjoint, every image once in row-major order. |
| Hyperlinks.ImagesInOrder | codec/src/lib.rs:1569-1588 | Every image is listed with its row and cell, those of earlier lines, then cells, then images first. |
| Hyperlinks.ExtractData | codec/src/lib.rs:1488-1513 | Every link becomes one new object, and every cell has the last one whose coordinates reach it; coordinates outside a line reach nothing. |
| Hyperlinks.ReachedByOwnRun | codec/src/lib.rs:1488-1609 | After serializing, a cell is reached by the record of its own run and no other. |
| Hyperlinks.SameObjectSameRun | codec/src/lib.rs:1471-1478 | Two cells get the same object exactly if they are in one run of one line. |
| Hyperlinks.SentOnceExactly | codec/src/lib.rs:1471-1478 | Every link object is sent once if and only if its cells are one stretch of one line. |
| Hyperlinks.SharingKeptExactly | codec/src/lib.rs:1471-1478 | Lines whose cells share objects run by run share them as before if and only if the cells of every link object were one stretch of one line. |
| Hyperlinks.WrappedLinkSplits | codec/src/lib.rs:1518-1609 | A link that wraps over two lines is sent twice, and its two cells come back with two objects. |
| Hyperlinks.RoundTrip | codec/src/lib.rs:1488-1609 | There and back: every cell has its text and a link of the same value, no images; all images are in the list, once each in row-major order; identity is kept within runs, and as a whole exactly if no link object has cells in two runs. |
| Layout.AcceptedHasTree | check-pane-layout.py:105-180 | What `validate_box` accepts are the panes of a split tree of the box with one-cell dividers. |
| Layout.TreeSplitsAt | check-pane-layout.py:129-142 | The root divider of such a tree passes all the conditions on a divider. |
| Layout.TreeIsAccepted | check-pane-layout.py:105-180 | The panes of such a tree are accepted, whichever divider is tried first. |
| Layout.AcceptsExactly | check-pane-layout.py:105-180 | Sound and complete, for rectangles of any size: accepted if and only if there is a tree with every divider behind at least one cell of its box. |
| Layout.AcceptsPositive | check-pane-layout.py:105-180 | Panes of positive size are accepted if and only if they are the leaves of any split tree of the box. |
| Layout.EmptyPaneRefused | check-pane-layout.py:129-131 | A pane without columns in front of a divider is refused although it has a tree. |
| Layout.ValidateBox | check-pane-layout.py:105-181 | No error if the panes are accepted, one error otherwise, by recursion over the candidate dividers in order. |
| Layout.TrySplits | check-pane-layout.py:129-150 | The loop over the candidates finds a divider exactly if there is one. |
| Layout.OverlapIsSharedCell | check-pane-layout.py:69-75 | Two panes of positive size overlap exactly if they share a cell. |
| Layout.PairwiseOverlaps | check-pane-layout.py:78-86 | Every overlapping pair once, in order. |
| Layout.NoOverlaps | check-pane-layout.py:78-86 | There is no report exactly if no two panes overlap. |
| Layout.FindSmallPanes | check-pane-layout.py:89-102 | Errors for exactly the panes without columns or rows, warnings for exactly the other small ones. |
| Layout.AcceptedDisjoint | check-pane-layout.py:69-180 | Accepted panes of positive size do not overlap and stay inside the box. |
| Layout.CellsCovered | check-pane-layout.py:3-12 | Every cell of the box is on a divider or in a pane, and not both. |
| Layout.AreaConserved | check-pane-layout.py:3-12 | The panes and the dividers together have the area of the box. |
| Layout.TabOkWhen | check-pane-layout.py:184-209 | The overlap check finds nothing that the other two would not. |
| Layout.ValidateTab | check-pane-layout.py:184-216 | No errors exactly for no panes, or panes of positive size that are the leaves of a split tree of the box from the origin to their furthest sides; otherwise all errors in order. |

## Left out

- L3 (`reorder_non_spacing_marks`): off unless a caller asks for it; the model has it off.
- The character class and bracket tables and their searches: the model takes the classes of a paragraph as given and any function from characters to brackets.
- Following.FollowsExactly: assumes that no push is ignored, which Explicit.FullAtBaseZero describes, and that only the last character separates paragraphs, as rule P1 has it.
- Weak.ResolveCombiningMarks: a nonspacing mark after an isolate control takes the class of the control, as the code has it, where W1 in UAX #9 says ON; MarksAfterControls.SameInTheEnd shows that nothing comes of it.
- Following.NextIsMatch: says nothing about initiators that are overridden, for which BD8 and BD9 go by the original class and the code by the overridden one; NextCharacter.ByDefinitionExactly does, and OverriddenIsolates says what comes of it.
- CutSequences.CutExactly: one cut, in a sequence whose brackets do not overflow.
- Conformance.FollowsUax: the conditions are sufficient for the whole result; each is exact for its own stage. Paragraphs with unlinked initiators are left out, although OverriddenIsolates.UnlinkedHarmless and CutSequences.CutKeepsClasses say for one sequence that most of them come out right.
- Runs.SpanOneRun: level runs are cut at isolate initiators, as the code has it, where BD7 does not cut them; NextCharacter.ByDefinitionExactly says when that makes a difference.
- Neutral.IsPriorContext: the source has one copy of each look for the left and one for the right side; the model has one with the side as a parameter.
- Layout.TrySplits: the source has one copy of the loop for columns and one for rows; the model has one with the axis as a parameter, and complaints are values instead of sentences.
- Brackets.SortPairs: the unstable library sort is an insertion; by Brackets.SortUnique any sort gives the same.
- Base91.Enctab: the two tables are written as ranges and cases instead of array literals.
- The flush of the basE91 writers when they are dropped, which ignores errors.
- Leb128.ReadU64: the `leb128` crate is not part of this repository; the model follows section 7.6 of DWARF 5 with a limit of 64 bits, and skips to the end of a number that is too large.
- Framing.EncodeRawAsVec: frames whose length would reach the compression bit, which no buffer can hold.
- FrameStream.DecodePdu: payloads are opaque; serialization, compression and the list of PDU structs are one function from frames to values or failures.
- FrameStream.FrameBuffer.StreamDecode: the unsafe move of the buffer's tail is modelled as what its comment says, removing the consumed bytes from the front.
- Hyperlinks.ExtractData: cells are a text, a link and images; other attributes do not change and are part of the text.
- Bintree: `path_to_root`, equality and formatting, which only read.
- Machine widths: levels, positions and bit counts are integers; the bounds that keep them in `i8`, `u32` and `u64` are among the properties proved.
- Tracing, `dump_state`, metrics and logging.
- Configuration, windows, fonts, colour conversion, processes and all other crates.
