/** The directional status stack of rules X1-X8: three arrays of MAX_DEPTH
    entries and the current depth. */
module LevelStack {
  import opened BidiTypes

  datatype Override = Neutral | LTR | RTL
  {
    /** The class of a character under this override status. */
    function Apply(bc: BidiClass): BidiClass {
      match this
      case LTR => LeftToRight
      case RTL => RightToLeft
      case Neutral => bc
    }
  }

  datatype Status = Status(level: Level, overriding: Override, isolate: bool)

  class LevelStack {
    var embeddingLevels: array<Level>
    var overrideStatuses: array<Override>
    var isolateStatuses: array<bool>
    var depth: nat

    /** The entries in use, oldest first. */
    ghost var Contents: seq<Status>

    ghost function Repr(): set<object>
      reads this
    {
      {this, embeddingLevels, overrideStatuses, isolateStatuses}
    }

    ghost predicate Valid()
      reads this, Repr()
    {
      && embeddingLevels.Length == overrideStatuses.Length == isolateStatuses.Length == MAX_DEPTH
      && depth == |Contents| <= MAX_DEPTH
      && forall i :: 0 <= i < depth ==>
           Contents[i] == Status(embeddingLevels[i], overrideStatuses[i], isolateStatuses[i])
    }

    constructor ()
      ensures Valid() && fresh(Repr())
      ensures Contents == []
    {
      embeddingLevels := new Level[MAX_DEPTH](_ => 0);
      overrideStatuses := new Override[MAX_DEPTH](_ => Neutral);
      isolateStatuses := new bool[MAX_DEPTH](_ => false);
      depth := 0;
      Contents := [];
    }

    /** A push on a full stack is ignored. */
    method Push(level: Level, overriding: Override, isolate: bool)
      requires Valid()
      modifies Repr()
      ensures Valid() && Repr() == old(Repr())
      ensures Contents ==
        if |old(Contents)| >= MAX_DEPTH then old(Contents)
        else old(Contents) + [Status(level, overriding, isolate)]
    {
      if depth >= MAX_DEPTH {
        return;
      }
      embeddingLevels[depth] := level;
      overrideStatuses[depth] := overriding;
      isolateStatuses[depth] := isolate;
      depth := depth + 1;
      Contents := Contents + [Status(level, overriding, isolate)];
    }

    method Pop()
      requires Valid()
      modifies this`depth, this`Contents
      ensures Valid() && Repr() == old(Repr())
      ensures Contents == if old(Contents) == [] then [] else old(Contents)[..|old(Contents)| - 1]
    {
      if depth > 0 {
        depth := depth - 1;
        Contents := Contents[..depth];
      }
    }

    function EmbeddingLevel(): (level: Level)
      reads this, Repr()
      requires Valid() && depth > 0
      ensures level == Contents[depth - 1].level
    {
      embeddingLevels[depth - 1]
    }

    function OverrideStatus(): (overriding: Override)
      reads this, Repr()
      requires Valid() && depth > 0
      ensures overriding == Contents[depth - 1].overriding
    {
      overrideStatuses[depth - 1]
    }

    function IsolateStatus(): (isolate: bool)
      reads this, Repr()
      requires Valid() && depth > 0
      ensures isolate == Contents[depth - 1].isolate
    {
      isolateStatuses[depth - 1]
    }
  }
}
