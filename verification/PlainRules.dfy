/** Rules W1-W7, N1 and N2 as conditions on the text of a sequence: what a character becomes is
    said by what stands before and after it, with the removed characters still in between. */
module PlainRules {
  import opened Wrappers
  import opened BidiTypes
  import opened Runs
  import opened TextChains

  /** The classes of the characters that rule X9 keeps. */
  const KEPT_CLASSES := {
    LeftToRight, RightToLeft, ArabicLetter,
    EuropeanNumber, EuropeanSeparator, EuropeanTerminator, ArabicNumber, CommonSeparator, NonspacingMark,
    ParagraphSeparator, SegmentSeparator, WhiteSpace, OtherNeutral,
    LeftToRightIsolate, RightToLeftIsolate, FirstStrongIsolate, PopDirectionalIsolate
  }

  /** Before `k` stands a class of `found`, and none of `stop` between. */
  ghost predicate Back(cs: seq<BidiClass>, k: int, found: set<BidiClass>, stop: set<BidiClass>)
    requires k <= |cs|
  {
    exists j :: 0 <= j < k && cs[j] in found && forall h :: j < h < k ==> cs[h] !in stop
  }

  /** After `k` stands a class of `found`, and none of `stop` between. */
  ghost predicate Ahead(cs: seq<BidiClass>, k: int, found: set<BidiClass>, stop: set<BidiClass>)
    requires 0 <= k
  {
    exists j :: k < j < |cs| && cs[j] in found && forall h :: k < h < j ==> cs[h] !in stop
  }

  ghost predicate NoneBack(cs: seq<BidiClass>, k: int, stop: set<BidiClass>)
    requires k <= |cs|
  {
    forall h :: 0 <= h < k ==> cs[h] !in stop
  }

  ghost predicate NoneAhead(cs: seq<BidiClass>, k: int, stop: set<BidiClass>)
    requires 0 <= k
  {
    forall h :: k < h < |cs| ==> cs[h] !in stop
  }

  // ----- The rules -----

  /** W1: a mark takes the class of the character before it that is no mark, or sos. */
  ghost predicate ByW1(cs: seq<BidiClass>, k: nat, sos: BidiClass, bc: BidiClass)
    requires k < |cs|
  {
    if cs[k] != NonspacingMark then bc == cs[k]
    else
      || (bc in KEPT_CLASSES - {NonspacingMark} && Back(cs, k, {bc}, KEPT_CLASSES - {NonspacingMark}))
      || (bc == sos && NoneBack(cs, k, KEPT_CLASSES - {NonspacingMark}))
  }

  /** W2: a European number is Arabic if the last strong character before it is AL. */
  ghost predicate ByW2(cs: seq<BidiClass>, k: nat, bc: BidiClass)
    requires k < |cs|
  {
    bc == if cs[k] == EuropeanNumber && Back(cs, k, {ArabicLetter}, {LeftToRight, RightToLeft, ArabicLetter}) then ArabicNumber
          else cs[k]
  }

  /** W3 */
  ghost predicate ByW3(cs: seq<BidiClass>, k: nat, bc: BidiClass)
    requires k < |cs|
  {
    bc == if cs[k] == ArabicLetter then RightToLeft else cs[k]
  }

  /** The neighbours on both sides, past removed characters, are of class `bc`. */
  ghost predicate Amid(cs: seq<BidiClass>, k: nat, bc: BidiClass)
    requires k < |cs|
  {
    Back(cs, k, {bc}, KEPT_CLASSES) && Ahead(cs, k, {bc}, KEPT_CLASSES)
  }

  /** W4: a separator between two numbers of one kind joins them. */
  ghost predicate ByW4(cs: seq<BidiClass>, k: nat, bc: BidiClass)
    requires k < |cs|
  {
    bc == if cs[k] in {EuropeanSeparator, CommonSeparator} && Amid(cs, k, EuropeanNumber) then EuropeanNumber
          else if cs[k] == CommonSeparator && Amid(cs, k, ArabicNumber) then ArabicNumber
          else cs[k]
  }

  /** W5: terminators next to a European number join it. */
  ghost predicate ByW5(cs: seq<BidiClass>, k: nat, bc: BidiClass)
    requires k < |cs|
  {
    bc == if && cs[k] == EuropeanTerminator
             && (|| Back(cs, k, {EuropeanNumber}, KEPT_CLASSES - {EuropeanTerminator})
                 || Ahead(cs, k, {EuropeanNumber}, KEPT_CLASSES - {EuropeanTerminator}))
          then EuropeanNumber
          else cs[k]
  }

  /** W6: other separators and terminators are neutral. */
  ghost predicate ByW6(cs: seq<BidiClass>, k: nat, bc: BidiClass)
    requires k < |cs|
  {
    bc == if cs[k] == EuropeanSeparator || cs[k] == EuropeanTerminator || cs[k] == CommonSeparator then OtherNeutral
          else cs[k]
  }

  /** W7: a European number is L if the last L or R before it, or sos, is L. */
  ghost predicate ByW7(cs: seq<BidiClass>, k: nat, sos: BidiClass, bc: BidiClass)
    requires k < |cs|
  {
    bc == if && cs[k] == EuropeanNumber
             && (|| Back(cs, k, {LeftToRight}, {LeftToRight, RightToLeft})
                 || (sos == LeftToRight && NoneBack(cs, k, {LeftToRight, RightToLeft})))
          then LeftToRight
          else cs[k]
  }

  /** The classes that stop a look past neutrals. */
  const NOT_NEUTRAL := {
    LeftToRight, RightToLeft, ArabicLetter,
    EuropeanNumber, EuropeanSeparator, EuropeanTerminator, ArabicNumber, CommonSeparator, NonspacingMark
  }

  /** What counts as L, and what as R, in N0 and N1. */
  const LEFTS := {LeftToRight}
  const RIGHTS := {RightToLeft, EuropeanNumber, ArabicNumber}

  /** The text before `k`, past neutrals, goes to `bc`, which `found` counts for. */
  ghost predicate Led(cs: seq<BidiClass>, k: nat, found: set<BidiClass>, sos: BidiClass, bc: BidiClass)
    requires k <= |cs|
  {
    Back(cs, k, found, NOT_NEUTRAL) || (sos == bc && NoneBack(cs, k, NOT_NEUTRAL))
  }

  /** Past neutrals, a class of `found` stands on both sides; `edge` is what sos or eos must be
      where nothing but neutrals is left. */
  ghost predicate Flanked(cs: seq<BidiClass>, k: nat, found: set<BidiClass>, sos: BidiClass, eos: BidiClass, edge: BidiClass)
    requires k < |cs|
  {
    && Led(cs, k, found, sos, edge)
    && (Ahead(cs, k, found, NOT_NEUTRAL) || (eos == edge && NoneAhead(cs, k, NOT_NEUTRAL)))
  }

  /** N1: a neutral between two sides that agree takes that side; numbers count as R. */
  ghost predicate ByN1(cs: seq<BidiClass>, k: nat, sos: BidiClass, eos: BidiClass, bc: BidiClass)
    requires k < |cs|
  {
    bc == if cs[k] !in KEPT_CLASSES - NOT_NEUTRAL then cs[k]
          else if Flanked(cs, k, LEFTS, sos, eos, LeftToRight) then LeftToRight
          else if Flanked(cs, k, RIGHTS, sos, eos, RightToLeft) then RightToLeft
          else cs[k]
  }

  /** N2: any other neutral is R at an odd level and L at an even one; no negative level is
      odd. */
  ghost predicate ByN2(cs: seq<BidiClass>, k: nat, level: Level, bc: BidiClass)
    requires k < |cs|
  {
    bc == if cs[k] !in KEPT_CLASSES - NOT_NEUTRAL then cs[k]
          else if level > 0 && level % 2 == 1 then RightToLeft
          else LeftToRight
  }

  /** A class of `found` stands between `a` and `b`. */
  ghost predicate Enclosed(cs: seq<BidiClass>, a: nat, b: nat, found: set<BidiClass>)
    requires b <= |cs|
  {
    exists k :: a < k < b && cs[k] in found
  }

  /** N0 b-d: what the brackets at `a` and `b` become, if anything. The embedding direction
      wins if it occurs between them. If only the other one does, the text before them decides. */
  ghost function TakenByPair(cs: seq<BidiClass>, level: Level, sos: BidiClass, a: nat, b: nat): Option<BidiClass>
    requires a < b <= |cs|
  {
    if level > 0 && level % 2 == 1 then
      if Enclosed(cs, a, b, RIGHTS) then Some(RightToLeft)
      else if !Enclosed(cs, a, b, LEFTS) then None
      else if Led(cs, a, LEFTS, sos, LeftToRight) then Some(LeftToRight)
      else Some(RightToLeft)
    else
      if Enclosed(cs, a, b, LEFTS) then Some(LeftToRight)
      else if !Enclosed(cs, a, b, RIGHTS) then None
      else if Led(cs, a, RIGHTS, sos, RightToLeft) then Some(RightToLeft)
      else Some(LeftToRight)
  }

  /** What goes with a pair: the brackets and the marks right after them, past removed
      characters, by their classes on entry; those of the opening bracket end at the closing one. */
  ghost predicate GoesWithPair(orig: seq<BidiClass>, a: nat, b: nat, k: nat)
    requires k < |orig|
  {
    || k == a
    || k == b
    || (&& orig[k] == NonspacingMark
        && (|| (a < k < b && forall j :: a < j < k ==> orig[j] !in KEPT_CLASSES - {NonspacingMark})
            || (b < k && forall j :: b < j < k ==> orig[j] !in KEPT_CLASSES - {NonspacingMark})))
  }

  /** N0 for the pair at `a` and `b`. */
  ghost predicate ByN0(cs: seq<BidiClass>, orig: seq<BidiClass>, level: Level, sos: BidiClass, a: nat, b: nat, after: seq<BidiClass>)
    requires a < b <= |cs| == |orig|
  {
    && |after| == |cs|
    && var to := TakenByPair(cs, level, sos, a, b);
       forall k :: 0 <= k < |cs| ==> after[k] == if to.Some? && GoesWithPair(orig, a, b, k) then to.value else cs[k]
  }

  // ----- One step of a look -----

  lemma BackStep(cs: seq<BidiClass>, k: nat, found: set<BidiClass>, stop: set<BidiClass>)
    requires k < |cs| && found <= stop
    ensures Back(cs, k + 1, found, stop) <==> if cs[k] in stop then cs[k] in found else Back(cs, k, found, stop)
    ensures NoneBack(cs, k + 1, stop) <==> cs[k] !in stop && NoneBack(cs, k, stop)
    ensures !Back(cs, 0, found, stop) && NoneBack(cs, 0, stop)
  {
    if Back(cs, k, found, stop) && cs[k] !in stop {
      var j :| 0 <= j < k && cs[j] in found && forall h :: j < h < k ==> cs[h] !in stop;
      assert forall h :: j < h < k + 1 ==> cs[h] !in stop;
    }
  }

  lemma AheadStep(cs: seq<BidiClass>, k: nat, found: set<BidiClass>, stop: set<BidiClass>)
    requires 0 < k < |cs| && found <= stop
    ensures Ahead(cs, k - 1, found, stop) <==> if cs[k] in stop then cs[k] in found else Ahead(cs, k, found, stop)
    ensures NoneAhead(cs, k - 1, stop) <==> cs[k] !in stop && NoneAhead(cs, k, stop)
  {
    if Ahead(cs, k, found, stop) && cs[k] !in stop {
      var j :| k < j < |cs| && cs[j] in found && forall h :: k < h < j ==> cs[h] !in stop;
      assert forall h :: k - 1 < h < j ==> cs[h] !in stop;
    }
  }

  // ----- From the characters that were kept to all of them -----

  /** The classes at the positions of the chain, removed or not. */
  ghost function Along(types: seq<BidiClass>, indices: seq<nat>): (cs: seq<BidiClass>)
    requires forall p :: 0 <= p < |indices| ==> indices[p] < |types|
    ensures |cs| == |indices|
    ensures forall p :: 0 <= p < |cs| ==> cs[p] == types[indices[p]]
  {
    seq(|indices|, p requires 0 <= p < |indices| => types[indices[p]])
  }

  /** `cs` is what is left of `all` without the removed characters; `f` says where. */
  ghost predicate Remain(all: seq<BidiClass>, cs: seq<BidiClass>, f: seq<nat>) {
    && |f| == |cs|
    && Increasing(f)
    && (forall k :: 0 <= k < |f| ==> f[k] < |all| && cs[k] == all[f[k]])
    && (forall p :: 0 <= p < |all| && all[p] in KEPT_CLASSES ==> p in f)
  }

  lemma KeptClass(bc: BidiClass)
    ensures bc in KEPT_CLASSES <==> !bc.IsFormat()
    ensures bc in KEPT_CLASSES - NOT_NEUTRAL <==> bc.IsNeutral()
  {
  }

  /** The places of the characters that were kept, for any classes at those levels. */
  ghost function Kept(levels: seq<Level>, indices: seq<nat>): (f: seq<nat>)
    requires Bounded(levels, indices)
    ensures forall k :: 0 <= k < |f| ==> f[k] < |indices|
  {
    if indices == [] then []
    else
      var n := |indices| - 1;
      Kept(levels, indices[..n]) + if levels[indices[n]] == NO_LEVEL then [] else [n]
  }

  ghost predicate KeptAt(levels: seq<Level>, indices: seq<nat>, f: seq<nat>)
    requires Bounded(levels, indices)
  {
    && Increasing(f)
    && (forall k :: 0 <= k < |f| ==> f[k] < |indices| && levels[indices[f[k]]] != NO_LEVEL)
    && (forall p :: 0 <= p < |indices| && levels[indices[p]] != NO_LEVEL ==> p in f)
  }

  lemma KeptNext(levels: seq<Level>, indices: seq<nat>, n: nat, f: seq<nat>)
    requires Bounded(levels, indices) && n + 1 == |indices| && KeptAt(levels, indices[..n], f)
    ensures KeptAt(levels, indices, if levels[indices[n]] == NO_LEVEL then f else f + [n])
  {
    var g := if levels[indices[n]] == NO_LEVEL then f else f + [n];
    forall k | 0 <= k < |g| ensures g[k] < |indices| && levels[indices[g[k]]] != NO_LEVEL {
      if k < |f| { assert g[k] == f[k] && indices[..n][f[k]] == indices[f[k]]; }
    }
    forall p | 0 <= p < |indices| && levels[indices[p]] != NO_LEVEL ensures p in g {
      if p < n {
        assert indices[..n][p] == indices[p];
        assert p in f;
      } else {
        assert g[|f|] == p;
      }
    }
  }

  lemma {:induction false} KeptMeans(levels: seq<Level>, indices: seq<nat>)
    requires Bounded(levels, indices)
    ensures KeptAt(levels, indices, Kept(levels, indices))
  {
    hide KeptAt;
    if indices == [] {
      NoneKept(levels);
    } else {
      var n := |indices| - 1;
      KeptMeans(levels, indices[..n]);
      var f := Kept(levels, indices[..n]);
      KeptNext(levels, indices, n, f);
      assert f + [] == f;
    }
  }

  lemma NoneKept(levels: seq<Level>)
    ensures KeptAt(levels, [], [])
  {
  }

  lemma {:induction false} LiveIsKept(types: seq<BidiClass>, levels: seq<Level>, indices: seq<nat>)
    requires |types| == |levels| && Bounded(levels, indices)
    ensures var cs, f := Live(types, levels, indices), Kept(levels, indices);
      |f| == |cs| && forall k :: 0 <= k < |f| ==> cs[k] == Along(types, indices)[f[k]]
  {
    if indices != [] {
      var n := |indices| - 1;
      LiveIsKept(types, levels, indices[..n]);
    }
  }

  ghost predicate AllKept(cs: seq<BidiClass>) {
    forall k :: 0 <= k < |cs| ==> cs[k] in KEPT_CLASSES
  }

  lemma RemainOfChain(types: seq<BidiClass>, levels: seq<Level>, indices: seq<nat>)
    requires Inert(types, levels) && Bounded(levels, indices) && Increasing(indices)
    ensures Remain(Along(types, indices), Live(types, levels, indices), Kept(levels, indices))
    ensures AllKept(Live(types, levels, indices))
  {
    hide Live, Kept;
    forall q | 0 <= q < |Live(types, levels, indices)| ensures Live(types, levels, indices)[q] in KEPT_CLASSES {
      var i := LiveAt(types, levels, indices, q);
      KeptClass(types[i]);
    }
    KeptMeans(levels, indices);
    LiveIsKept(types, levels, indices);
    forall p | 0 <= p < |indices| && Along(types, indices)[p] in KEPT_CLASSES
      ensures p in Kept(levels, indices)
    {
      KeptClass(types[indices[p]]);
    }
  }

  lemma RemainAt(all: seq<BidiClass>, cs: seq<BidiClass>, f: seq<nat>, p: nat) returns (k: nat)
    requires |f| == |cs| && Remain(all, cs, f) && p < |all| && all[p] in KEPT_CLASSES
    ensures k < |cs| && f[k] == p && cs[k] == all[p]
  {
    assert p in f;
    k :| k < |f| && f[k] == p;
  }

  lemma PlaceOrder(all: seq<BidiClass>, cs: seq<BidiClass>, f: seq<nat>, j: nat, k: nat)
    requires |f| == |cs| && Remain(all, cs, f) && j < |cs| && k < |cs|
    ensures f[j] < |all| && f[k] < |all|
    ensures j < k <==> f[j] < f[k]
    ensures cs[k] == all[f[k]] && cs[j] == all[f[j]]
  {
  }

  /** Between two places, `stop` is free in the text exactly if it is among what is left. */
  lemma FreeBetween(all: seq<BidiClass>, cs: seq<BidiClass>, f: seq<nat>, j: int, k: int, lo: int, hi: int, stop: set<BidiClass>)
    requires |f| == |cs| && Remain(all, cs, f) && -1 <= j && k <= |cs| && stop <= KEPT_CLASSES
    requires j < |cs| && lo == (if j < 0 then -1 else f[j])
    requires 0 <= k && hi == (if k == |cs| then |all| else f[k])
    ensures (forall h :: j < h < k ==> cs[h] !in stop) <==> (forall h :: lo < h < hi && h < |all| ==> all[h] !in stop)
  {
    hide Remain, KEPT_CLASSES;
    assert 0 <= lo + 1;
    if forall h :: j < h < k ==> cs[h] !in stop {
      forall h | lo < h < hi && h < |all| ensures all[h] !in stop {
        if all[h] in stop {
          var m := RemainAt(all, cs, f, h);
          if j >= 0 { PlaceOrder(all, cs, f, j, m); }
          if k < |cs| { PlaceOrder(all, cs, f, m, k); }
        }
      }
    }
    if forall h :: lo < h < hi && h < |all| ==> all[h] !in stop {
      forall h | j < h < k ensures cs[h] !in stop {
        if j >= 0 { PlaceOrder(all, cs, f, j, h); }
        if k < |cs| { PlaceOrder(all, cs, f, h, k); } else { PlaceOrder(all, cs, f, h, h); }
      }
    }
  }

  /** Looks for classes that were kept do not see the removed characters. */
  lemma BackSame(all: seq<BidiClass>, cs: seq<BidiClass>, f: seq<nat>, k: nat, found: set<BidiClass>, stop: set<BidiClass>)
    requires |f| == |cs| && Remain(all, cs, f) && k < |cs| && found <= KEPT_CLASSES && stop <= KEPT_CLASSES
    ensures f[k] < |all| && all[f[k]] == cs[k]
    ensures Back(cs, k, found, stop) <==> Back(all, f[k], found, stop)
    ensures NoneBack(cs, k, stop) <==> NoneBack(all, f[k], stop)
  {
    hide Remain, KEPT_CLASSES;
    PlaceOrder(all, cs, f, k, k);
    FreeBetween(all, cs, f, -1, k, -1, f[k], stop);
    if Back(cs, k, found, stop) {
      var j :| 0 <= j < k && cs[j] in found && forall h :: j < h < k ==> cs[h] !in stop;
      PlaceOrder(all, cs, f, j, k);
      FreeBetween(all, cs, f, j, k, f[j], f[k], stop);
    }
    if Back(all, f[k], found, stop) {
      var p :| 0 <= p < f[k] && all[p] in found && forall h :: p < h < f[k] ==> all[h] !in stop;
      var j := RemainAt(all, cs, f, p);
      PlaceOrder(all, cs, f, j, k);
      FreeBetween(all, cs, f, j, k, f[j], f[k], stop);
    }
  }

  lemma BackEndSame(all: seq<BidiClass>, cs: seq<BidiClass>, f: seq<nat>, found: set<BidiClass>, stop: set<BidiClass>)
    requires |f| == |cs| && Remain(all, cs, f) && found <= KEPT_CLASSES && stop <= KEPT_CLASSES
    ensures Back(cs, |cs|, found, stop) <==> Back(all, |all|, found, stop)
    ensures NoneBack(cs, |cs|, stop) <==> NoneBack(all, |all|, stop)
  {
    hide Remain, KEPT_CLASSES;
    FreeBetween(all, cs, f, -1, |cs|, -1, |all|, stop);
    if Back(cs, |cs|, found, stop) {
      var j :| 0 <= j < |cs| && cs[j] in found && forall h :: j < h < |cs| ==> cs[h] !in stop;
      PlaceOrder(all, cs, f, j, j);
      FreeBetween(all, cs, f, j, |cs|, f[j], |all|, stop);
    }
    if Back(all, |all|, found, stop) {
      var p :| 0 <= p < |all| && all[p] in found && forall h :: p < h < |all| ==> all[h] !in stop;
      var j := RemainAt(all, cs, f, p);
      PlaceOrder(all, cs, f, j, j);
      FreeBetween(all, cs, f, j, |cs|, f[j], |all|, stop);
    }
  }

  /** A look back does not see what follows. */
  lemma BackPrefix(all: seq<BidiClass>, part: seq<BidiClass>, k: nat, found: set<BidiClass>, stop: set<BidiClass>)
    requires k <= |all| && part == all[..k]
    ensures Back(part, k, found, stop) <==> Back(all, k, found, stop)
    ensures NoneBack(part, k, stop) <==> NoneBack(all, k, stop)
  {
    assert forall h :: 0 <= h < k ==> part[h] == all[h];
  }

  lemma AheadSame(all: seq<BidiClass>, cs: seq<BidiClass>, f: seq<nat>, k: nat, found: set<BidiClass>, stop: set<BidiClass>)
    requires |f| == |cs| && Remain(all, cs, f) && k < |cs| && found <= KEPT_CLASSES && stop <= KEPT_CLASSES
    ensures f[k] < |all| && all[f[k]] == cs[k]
    ensures Ahead(cs, k, found, stop) <==> Ahead(all, f[k], found, stop)
    ensures NoneAhead(cs, k, stop) <==> NoneAhead(all, f[k], stop)
  {
    hide Remain, KEPT_CLASSES;
    PlaceOrder(all, cs, f, k, k);
    FreeBetween(all, cs, f, k, |cs|, f[k], |all|, stop);
    if Ahead(cs, k, found, stop) {
      var j :| k < j < |cs| && cs[j] in found && forall h :: k < h < j ==> cs[h] !in stop;
      PlaceOrder(all, cs, f, k, j);
      FreeBetween(all, cs, f, k, j, f[k], f[j], stop);
    }
    if Ahead(all, f[k], found, stop) {
      var p :| f[k] < p < |all| && all[p] in found && forall h :: f[k] < h < p ==> all[h] !in stop;
      var j := RemainAt(all, cs, f, p);
      PlaceOrder(all, cs, f, k, j);
      FreeBetween(all, cs, f, k, j, f[k], f[j], stop);
    }
  }

  /** A rule that made `out` of `cs` made `after` of the text `all` around it. */
  ghost predicate Around(all: seq<BidiClass>, after: seq<BidiClass>, cs: seq<BidiClass>, out: seq<BidiClass>, f: seq<nat>) {
    && |after| == |all|
    && |out| == |cs| == |f|
    && Remain(all, cs, f)
    && AllKept(cs)
    && (forall k :: 0 <= k < |f| ==> after[f[k]] == out[k])
    && (forall p :: 0 <= p < |all| && all[p] !in KEPT_CLASSES ==> after[p] == all[p])
  }

  lemma AroundSize(all: seq<BidiClass>, after: seq<BidiClass>, cs: seq<BidiClass>, out: seq<BidiClass>, f: seq<nat>)
    requires Around(all, after, cs, out, f)
    ensures |after| == |all|
  {
  }

  lemma AroundAt(all: seq<BidiClass>, after: seq<BidiClass>, cs: seq<BidiClass>, out: seq<BidiClass>, f: seq<nat>, p: nat) returns (k: nat)
    requires Around(all, after, cs, out, f) && p < |all|
    ensures |f| == |cs| == |out| && |after| == |all| && Remain(all, cs, f) && AllKept(cs)
    ensures if all[p] in KEPT_CLASSES then k < |cs| && f[k] == p && cs[k] == all[p] && after[p] == out[k]
            else after[p] == all[p]
  {
    hide KEPT_CLASSES, AllKept;
    k := 0;
    if all[p] in KEPT_CLASSES { k := RemainAt(all, cs, f, p); }
  }

  lemma AroundChain(start: seq<BidiClass>, types: seq<BidiClass>, levels: seq<Level>, indices: seq<nat>)
    requires Inert(start, levels) && |types| == |start| == |levels| && Bounded(levels, indices) && Increasing(indices)
    requires Untouched(start, types, levels, indices)
    ensures Around(Along(start, indices), Along(types, indices), Live(start, levels, indices), Live(types, levels, indices), Kept(levels, indices))
  {
    hide Live, Kept, KEPT_CLASSES, Remain, AllKept;
    RemainOfChain(start, levels, indices);
    LiveIsKept(start, levels, indices);
    LiveIsKept(types, levels, indices);
    LiveLength(start, types, levels, indices);
    forall p | 0 <= p < |indices| && Along(start, indices)[p] !in KEPT_CLASSES
      ensures Along(types, indices)[p] == Along(start, indices)[p]
    {
      KeptClass(start[indices[p]]);
    }
  }
}
