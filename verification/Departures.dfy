/** Where a resolved paragraph departs from UAX #9: in which sequences its characters stand,
    and which bracket pairs are resolved. */
module Departures {
  import opened BidiTypes
  import opened Explicit
  import opened Runs
  import opened Linking
  import opened Matching
  import opened Following
  import opened NextCharacter
  import opened Rules
  import opened Brackets
  import opened BracketOverflow
  import opened Determined
  import opened Resolution

  lemma ResolvedGathered(types: seq<BidiClass>, base: Level, paragraph: seq<char>, lookup: BracketTable, st: Stages,
                         classes: seq<BidiClass>, levels: seq<Level>)
    requires Resolved(types, base, paragraph, lookup, st, classes, levels) && Unhindered(types, base)
    ensures Gathered(types, base, st.explicitClasses, st.explicitLevels, st.runs, st.isoRuns)
    ensures Finished(st.runs, st.isoRuns) && 0 <= base <= 1
  {
    hide Explained, Tiling, TailRemoved, Partition, Greedy, Finished, NoFullPush, AllWeakened, N0, AllNeutralized, LiveClasses, Levelled;
    TilingInRange(st.explicitClasses, st.explicitLevels, st.runs);
  }

  /** The isolating run sequences of a paragraph with room on the stack: run by run they
      follow BD13 exactly if no isolate is astray, and character by character they are those
      of BD7 and BD13 exactly if no initiator is parted from what follows it, or unlinked from
      its matching PDI because it is overridden. */
  lemma ResolvedSequences(types: seq<BidiClass>, base: Level, paragraph: seq<char>, lookup: BracketTable, st: Stages,
                          classes: seq<BidiClass>, levels: seq<Level>)
    requires Resolved(types, base, paragraph, lookup, st, classes, levels) && Unhindered(types, base)
    ensures 0 <= base <= 1 && |types| == |st.explicitClasses| == |st.explicitLevels|
    ensures InRange(st.explicitClasses, st.explicitLevels, st.runs)
    ensures FollowsBd13(types, st.explicitClasses, st.explicitLevels, st.runs, st.isoRuns) <==> NoneAstray(types, base)
    ensures ByDefinition(types, st.explicitLevels, st.isoRuns) <==>
            forall e :: 0 <= e < |types| ==>
              !PartedFrom(types, st.explicitClasses, st.explicitLevels, e) && !Unlinked(types, st.explicitClasses, st.explicitLevels, e)
  {
    ResolvedGathered(types, base, paragraph, lookup, st, classes, levels);
    hide Resolved, Gathered, Finished, FollowsBd13, NoneAstray, ByDefinition, PartedFrom, Unlinked;
    FollowsExactly(types, base, st.explicitClasses, st.explicitLevels, st.runs, st.isoRuns);
    ByDefinitionExactly(types, base, st.explicitClasses, st.explicitLevels, st.runs, st.isoRuns);
  }

  /** The brackets of a paragraph are resolved as N0 and BD16 have it, in every sequence on
      its own, exactly if no sequence overflows that has a pair to resolve, or comes before
      one that has. */
  lemma ResolvedPairs(types: seq<BidiClass>, base: Level, paragraph: seq<char>, lookup: BracketTable, st: Stages,
                      classes: seq<BidiClass>, levels: seq<Level>, each: seq<BidiClass>)
    requires Resolved(types, base, paragraph, lookup, st, classes, levels) && paragraph != []
    requires BoundedRuns(st.explicitLevels, st.isoRuns)
    requires EachOnItsOwn(st.weak, each, types, st.explicitLevels, st.isoRuns, paragraph, lookup, |st.isoRuns|)
    ensures st.paired != each <==> LosesPair(st.weak, st.explicitLevels, paragraph, lookup, st.isoRuns)
  {
    hide Explained, Tiling, TailRemoved, Partition, Greedy, Finished, AllWeakened, N0, AllNeutralized, LiveClasses, Levelled, EachOnItsOwn,
      LosesPair, Chain;
    SequencesAreChains(st.explicitClasses, st.explicitLevels, st.runs, st.isoRuns);
    StopsTooEarlyExactly(st.weak, st.paired, each, types, st.explicitLevels, st.isoRuns, paragraph, lookup);
  }
}
