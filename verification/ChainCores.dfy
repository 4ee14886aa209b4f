/** What of a chain takes part in the rules: the characters that X9 removed, and the separator
    that ends the paragraph, make no difference to the others. */
module ChainCores {
  import opened Wrappers
  import opened BidiTypes
  import opened Runs
  import opened TextChains
  import opened Rules
  import opened Brackets
  import opened Determined
  import opened BracketOverflow
  import opened MarksAfterControls
  import Weak
  import Neutral

  /** Removed, or the separator. */
  predicate Idle(orig: seq<BidiClass>, levels: seq<Level>, i: nat)
    requires i < |orig| == |levels|
  {
    levels[i] == NO_LEVEL || orig[i] == ParagraphSeparator
  }

  /** The chain without them. */
  ghost function Core(orig: seq<BidiClass>, levels: seq<Level>, indices: seq<nat>): (core: seq<nat>)
    requires |orig| == |levels| && Bounded(levels, indices)
    ensures Bounded(levels, core) && |core| <= |indices|
  {
    if indices == [] then []
    else
      var i := indices[|indices| - 1];
      Core(orig, levels, indices[..|indices| - 1]) + if Idle(orig, levels, i) then [] else [i]
  }

  /** Where the chain has them. */
  ghost function Places(orig: seq<BidiClass>, levels: seq<Level>, indices: seq<nat>): (f: seq<nat>)
    requires |orig| == |levels| && Bounded(levels, indices)
    ensures |f| == |Core(orig, levels, indices)|
  {
    if indices == [] then []
    else
      var n := |indices| - 1;
      Places(orig, levels, indices[..n]) + if Idle(orig, levels, indices[n]) then [] else [n]
  }

  /** Only the last position of the chain may be a separator. */
  ghost predicate SeparatorLast(orig: seq<BidiClass>, levels: seq<Level>, indices: seq<nat>)
    requires |orig| == |levels| && Bounded(levels, indices)
  {
    forall p :: 0 <= p < |indices| - 1 ==> orig[indices[p]] != ParagraphSeparator
  }

  /** `f` says where in the chain the members of `core` are, and the others are idle. */
  ghost predicate Placed(orig: seq<BidiClass>, levels: seq<Level>, indices: seq<nat>, core: seq<nat>, f: seq<nat>)
    requires |orig| == |levels| && Bounded(levels, indices)
  {
    && |f| == |core| && Increasing(f)
    && (forall k :: 0 <= k < |f| ==> f[k] < |indices| && indices[f[k]] == core[k] && !Idle(orig, levels, indices[f[k]]))
    && (forall p :: 0 <= p < |indices| && !Idle(orig, levels, indices[p]) ==> p in f)
  }

  lemma PlacedNext(orig: seq<BidiClass>, levels: seq<Level>, indices: seq<nat>, n: nat, core: seq<nat>, f: seq<nat>)
    requires |orig| == |levels| && Bounded(levels, indices) && n + 1 == |indices|
    requires Placed(orig, levels, indices[..n], core, f)
    ensures if Idle(orig, levels, indices[n]) then Placed(orig, levels, indices, core, f)
            else Placed(orig, levels, indices, core + [indices[n]], f + [n])
  {
    hide Idle;
    assert forall p :: 0 <= p < n ==> indices[..n][p] == indices[p];
    if !Idle(orig, levels, indices[n]) { assert (f + [n])[|f|] == n; }
  }

  lemma {:induction false} PlacesAt(orig: seq<BidiClass>, levels: seq<Level>, indices: seq<nat>)
    requires |orig| == |levels| && Bounded(levels, indices)
    ensures Placed(orig, levels, indices, Core(orig, levels, indices), Places(orig, levels, indices))
  {
    hide Idle, Placed;
    if indices == [] {
      NonePlaced(orig, levels);
    } else {
      var n := |indices| - 1;
      PlacesAt(orig, levels, indices[..n]);
      var core, f := Core(orig, levels, indices[..n]), Places(orig, levels, indices[..n]);
      PlacedNext(orig, levels, indices, n, core, f);
      assert core + [] == core && f + [] == f;
    }
  }

  lemma NonePlaced(orig: seq<BidiClass>, levels: seq<Level>)
    requires |orig| == |levels|
    ensures Placed(orig, levels, [], [], [])
  {
  }

  /** The first positions of the chain hold the first ones of its core. */
  lemma {:induction false} CorePrefix(orig: seq<BidiClass>, levels: seq<Level>, indices: seq<nat>, p: nat)
    requires |orig| == |levels| && Bounded(levels, indices) && p <= |indices|
    ensures Core(orig, levels, indices[..p]) <= Core(orig, levels, indices)
    ensures p < |indices| && !Idle(orig, levels, indices[p]) ==>
              |Core(orig, levels, indices[..p])| < |Core(orig, levels, indices)|
              && Places(orig, levels, indices)[|Core(orig, levels, indices[..p])|] == p
    decreases |indices|
  {
    var n := |indices| - 1;
    if p <= n {
      assert indices[..n][..p] == indices[..p];
      CorePrefix(orig, levels, indices[..n], p);
    } else {
      assert indices[..p] == indices;
    }
  }

  lemma {:induction false} InCore(orig: seq<BidiClass>, levels: seq<Level>, indices: seq<nat>, i: nat)
    requires |orig| == |levels| && Bounded(levels, indices)
    ensures i in Core(orig, levels, indices) <==> i in indices && i < |levels| && !Idle(orig, levels, i)
  {
    if indices != [] {
      var n := |indices| - 1;
      InCore(orig, levels, indices[..n], i);
      assert i in indices <==> i in indices[..n] || i == indices[n];
    }
  }

  lemma CoreIncreasing(orig: seq<BidiClass>, levels: seq<Level>, indices: seq<nat>)
    requires |orig| == |levels| && Bounded(levels, indices) && Increasing(indices)
    ensures Increasing(Core(orig, levels, indices))
  {
    hide Core, Places, Idle;
    PlacesAt(orig, levels, indices);
    var f, core := Places(orig, levels, indices), Core(orig, levels, indices);
    assert Placed(orig, levels, indices, core, f);
    forall j, k | 0 <= j < k < |core| ensures core[j] < core[k] {
      assert f[j] < f[k];
    }
  }

  // ----- The rules on the core -----

  /** The classes of a chain are those of its core, and that of the separator. */
  lemma {:induction false} LiveCore(types: seq<BidiClass>, orig: seq<BidiClass>, levels: seq<Level>, indices: seq<nat>)
    requires |types| == |orig| == |levels| && Bounded(levels, indices) && SeparatorLast(orig, levels, indices)
    ensures Live(types, levels, indices) == Live(types, levels, Core(orig, levels, indices)) + SeparatorOf(types, orig, levels, indices)
  {
    hide Live;
    if indices == [] {
      LiveEmpty(types, levels);
    } else {
      var n := |indices| - 1;
      var rest := indices[..n];
      LiveCore(types, orig, levels, rest);
      assert SeparatorOf(types, orig, levels, rest) == [] by {
        if rest != [] { assert rest[n - 1] == indices[n - 1]; }
      }
      LiveNext(types, levels, indices, n);
      assert indices[..n + 1] == indices;
      var c := Core(orig, levels, rest);
      assert c + [] == c;
      if !Idle(orig, levels, indices[n]) {
        LiveConcat(types, levels, c, [indices[n]]);
        LiveOne(types, levels, indices[n]);
      }
    }
  }

  /** The class of the separator, if the chain ends in one. */
  ghost function SeparatorOf(types: seq<BidiClass>, orig: seq<BidiClass>, levels: seq<Level>, indices: seq<nat>): seq<BidiClass>
    requires |types| == |orig| == |levels| && Bounded(levels, indices)
  {
    if indices == [] then []
    else
      var i := indices[|indices| - 1];
      if levels[i] != NO_LEVEL && orig[i] == ParagraphSeparator then [types[i]] else []
  }

  lemma {:induction false} NumberAfterPrefix(cs: seq<BidiClass>, k: nat)
    requires k < |cs|
    ensures Weak.NumberAfter(cs + [ParagraphSeparator], k) == Weak.NumberAfter(cs, k)
    decreases |cs| - k
  {
    if k + 1 < |cs| { NumberAfterPrefix(cs, k + 1); }
  }

  lemma {:induction false} SideFromPrefix(cs: seq<BidiClass>, k: nat, eos: BidiClass)
    requires k <= |cs|
    ensures Neutral.SideFrom(cs + [ParagraphSeparator], k, eos) == Neutral.SideFrom(cs, k, eos)
    decreases |cs| - k
  {
    if k < |cs| { SideFromPrefix(cs, k + 1, eos); }
  }

  lemma {:induction false} BaseBeforeSame(a: seq<BidiClass>, b: seq<BidiClass>, k: nat, sos: BidiClass)
    requires k <= |a| && k <= |b| && forall j :: 0 <= j < k ==> a[j] == b[j]
    ensures Weak.BaseBefore(a, k, sos) == Weak.BaseBefore(b, k, sos)
  {
    if k > 0 { BaseBeforeSame(a, b, k - 1, sos); }
  }

  lemma {:induction false} NumberBeforeSame(a: seq<BidiClass>, b: seq<BidiClass>, k: nat)
    requires k <= |a| && k <= |b| && forall j :: 0 <= j < k ==> a[j] == b[j]
    ensures Weak.NumberBefore(a, k) == Weak.NumberBefore(b, k)
  {
    if k > 0 { NumberBeforeSame(a, b, k - 1); }
  }

  /** W1-W7 and N1 do not see a separator at the end. */
  lemma WeakAppend(rule: Rule, cs: seq<BidiClass>, run: IsoRun)
    requires !rule.RuleN1? && !rule.RuleN2?
    ensures Apply(rule, cs + [ParagraphSeparator], run) == Apply(rule, cs, run) + [ParagraphSeparator]
  {
    hide Weak.StrongBefore, Weak.BaseBefore, Weak.NumberBefore, Weak.NumberAfter;
    var more := cs + [ParagraphSeparator];
    forall k | 0 <= k < |cs| ensures Apply(rule, more, run)[k] == Apply(rule, cs, run)[k] {
      BaseBeforeSame(more, cs, k, run.sos);
      Weak.StrongBeforeSame(more, cs, k, run.sos, Weak.LETTERS);
      Weak.StrongBeforeSame(more, cs, k, run.sos, Weak.SIDES);
      NumberBeforeSame(more, cs, k);
      NumberAfterPrefix(cs, k);
    }
  }

  lemma UaxW1Append(cs: seq<BidiClass>, sos: BidiClass)
    ensures UaxW1(cs + [ParagraphSeparator], sos) == UaxW1(cs, sos) + [ParagraphSeparator]
  {
    hide Weak.BaseBefore;
    forall k | 0 <= k < |cs| ensures UaxW1(cs + [ParagraphSeparator], sos)[k] == UaxW1(cs, sos)[k] {
      BaseBeforeSame(cs + [ParagraphSeparator], cs, k, sos);
    }
  }

  lemma LaterAppend(cs: seq<BidiClass>, run: IsoRun)
    ensures Apply(RuleW7, Apply(RuleW6, Apply(RuleW5, Apply(RuleW4, Apply(RuleW3, Apply(RuleW2, cs + [ParagraphSeparator], run), run), run), run), run), run)
         == Apply(RuleW7, Apply(RuleW6, Apply(RuleW5, Apply(RuleW4, Apply(RuleW3, Apply(RuleW2, cs, run), run), run), run), run), run) + [ParagraphSeparator]
  {
    hide Apply;
    var a2 := Apply(RuleW2, cs, run);
    var a3 := Apply(RuleW3, a2, run);
    var a4 := Apply(RuleW4, a3, run);
    var a5 := Apply(RuleW5, a4, run);
    var a6 := Apply(RuleW6, a5, run);
    WeakAppend(RuleW2, cs, run);
    WeakAppend(RuleW3, a2, run);
    WeakAppend(RuleW4, a3, run);
    WeakAppend(RuleW5, a4, run);
    WeakAppend(RuleW6, a5, run);
    WeakAppend(RuleW7, a6, run);
  }

  lemma WeakenedAppend(cs: seq<BidiClass>, run: IsoRun)
    ensures Weakened(cs + [ParagraphSeparator], run) == Weakened(cs, run) + [ParagraphSeparator]
    ensures UaxWeakened(cs + [ParagraphSeparator], run) == UaxWeakened(cs, run) + [ParagraphSeparator]
  {
    hide Apply;
    WeakAppend(RuleW1, cs, run);
    LaterAppend(Apply(RuleW1, cs, run), run);
    UaxW1Append(cs, run.sos);
    LaterAppend(UaxW1(cs, run.sos), run);
  }

  /** At the end, where eos is the direction of the level, a separator takes that direction
      and the others are as without it. */
  lemma NeutralizedAppend(cs: seq<BidiClass>, run: IsoRun)
    requires run.eos == ClassOf(run.level)
    ensures Neutralized(cs + [ParagraphSeparator], run) == Neutralized(cs, run) + [ClassOf(run.level)]
  {
    hide Neutral.SideBefore, Neutral.SideFrom;
    var more := cs + [ParagraphSeparator];
    var n := |cs|;
    forall k | 0 <= k < n ensures Apply(RuleN1, more, run)[k] == Apply(RuleN1, cs, run)[k] {
      Neutral.SideBeforeSame(more, cs, k, run.sos);
      SideFromPrefix(cs, k + 1, run.eos);
    }
    AtTheEnd(more, run.eos);
    assert Apply(RuleN1, more, run)[n] in {ParagraphSeparator, ClassOf(run.level)};
  }

  lemma AtTheEnd(cs: seq<BidiClass>, eos: BidiClass)
    ensures Neutral.SideFrom(cs, |cs|, eos) == Neutral.EdgeOf(eos)
  {
  }

  lemma {:induction false} SideFromStrong(cs: seq<BidiClass>, k: nat, e: BidiClass, f: BidiClass)
    requires k < |cs| && !cs[|cs| - 1].IsNeutral()
    ensures Neutral.SideFrom(cs, k, e) == Neutral.SideFrom(cs, k, f)
    decreases |cs| - k
  {
    if k + 1 < |cs| { SideFromStrong(cs, k + 1, e, f); }
  }

  /** Nor does eos matter where the last character is not neutral. */
  lemma EosIrrelevant(cs: seq<BidiClass>, a: IsoRun, b: IsoRun)
    requires a.sos == b.sos && a.level == b.level
    requires a.eos == b.eos || (cs != [] && !cs[|cs| - 1].IsNeutral())
    ensures Neutralized(cs, a) == Neutralized(cs, b)
  {
    hide Neutral.SideBefore, Neutral.SideFrom;
    forall k | 0 <= k < |cs| ensures Apply(RuleN1, cs, a)[k] == Apply(RuleN1, cs, b)[k] {
      if a.eos != b.eos && k < |cs| - 1 { SideFromStrong(cs, k + 1, a.eos, b.eos); }
    }
  }

  lemma WeakenedRuns(cs: seq<BidiClass>, a: IsoRun, b: IsoRun)
    requires a.sos == b.sos
    ensures Weakened(cs, a) == Weakened(cs, b) && UaxWeakened(cs, a) == UaxWeakened(cs, b)
  {
    hide Weak.StrongBefore, Weak.BaseBefore, Weak.NumberBefore, Weak.NumberAfter, Weak.W1, Weak.W2, Weak.W3, Weak.W4, Weak.W5, Weak.W6, Weak.W7, UaxW1;
  }

  // ----- BD16 on the core -----

  function At(f: seq<nat>, k: nat): nat {
    if k < |f| then f[k] else 0
  }

  /** A pairing of the core told in positions of the chain. */
  function MapWaiting(f: seq<nat>, w: seq<Waiting>): (r: seq<Waiting>)
    ensures |r| == |w|
  {
    seq(|w|, d requires 0 <= d < |w| => Waiting(w[d].closing, At(f, w[d].pos)))
  }

  function MapPair(f: seq<nat>, p: Pair): Pair {
    Pair(At(f, p.openingPos), At(f, p.closingPos))
  }

  function MapPairs(f: seq<nat>, pairs: seq<Pair>): (r: seq<Pair>)
    ensures |r| == |pairs|
  {
    seq(|pairs|, k requires 0 <= k < |pairs| => MapPair(f, pairs[k]))
  }

  function MapPairing(f: seq<nat>, st: Pairing): Pairing {
    Pairing(MapWaiting(f, st.waiting), MapPairs(f, st.pairs))
  }

  function MapState(f: seq<nat>, st: Option<Pairing>): Option<Pairing> {
    if st.None? then None else Some(MapPairing(f, st.value))
  }

  lemma {:induction false} SeekMapped(f: seq<nat>, w: seq<Waiting>, bracket: char)
    ensures Seek(MapWaiting(f, w), bracket) == Seek(w, bracket)
  {
    if w != [] {
      var n := |w| - 1;
      assert MapWaiting(f, w)[..n] == MapWaiting(f, w[..n]);
      SeekMapped(f, w[..n], bracket);
    }
  }

  lemma StepMapped(f: seq<nat>, st: Pairing, k: nat, mark: Mark)
    requires k < |f|
    ensures PairStep(MapPairing(f, st), f[k], mark) == MapState(f, PairStep(st, k, mark))
  {
    match mark
    case Other =>
    case Opening(closing) =>
      assert MapWaiting(f, st.waiting + [Waiting(closing, k)]) == MapWaiting(f, st.waiting) + [Waiting(closing, f[k])];
    case Closing(bracket) =>
      SeekMapped(f, st.waiting, bracket);
      var d := Seek(st.waiting, bracket);
      if d.Some? {
        var p := Pair(st.waiting[d.value].pos, k);
        assert MapWaiting(f, st.waiting)[..d.value] == MapWaiting(f, st.waiting[..d.value]);
        assert MapPairs(f, st.pairs + [p]) == MapPairs(f, st.pairs) + [MapPair(f, p)];
      }
  }

  /** The marks of the chain are those of the core, and `Other` elsewhere. */
  ghost predicate MarksPlaced(a: seq<Mark>, b: seq<Mark>, f: seq<nat>) {
    && |f| == |b| && Increasing(f)
    && (forall k :: 0 <= k < |f| ==> f[k] < |a| && a[f[k]] == b[k])
    && (forall p :: 0 <= p < |a| && p !in f ==> a[p] == Other)
  }

  /** The first `k` places are those before `p`. */
  ghost predicate SplitAt(f: seq<nat>, p: nat, k: nat) {
    k <= |f| && (k > 0 ==> f[k - 1] < p) && forall j :: 0 <= j < |f| ==> (f[j] < p <==> j < k)
  }

  lemma SplitBefore(f: seq<nat>, p: nat, k: nat)
    requires Increasing(f) && 0 < p && SplitAt(f, p, k)
    ensures k <= |f|
    ensures if k > 0 && f[k - 1] == p - 1 then SplitAt(f, p - 1, k - 1) else p - 1 !in f && SplitAt(f, p - 1, k)
  {
    if !(k > 0 && f[k - 1] == p - 1) {
      forall j | 0 <= j < |f| ensures f[j] != p - 1 {
        assert f[j] < p <==> j < k;
      }
    }
  }

  lemma {:induction false} CollectMapped(a: seq<Mark>, b: seq<Mark>, f: seq<nat>, p: nat, k: nat)
    requires MarksPlaced(a, b, f) && p <= |a| && SplitAt(f, p, k)
    ensures Collect(a, p) == MapState(f, Collect(b, k))
    ensures Collected(a, p) == MapPairing(f, Collected(b, k))
  {
    hide PairStep, SplitAt;
    if p == 0 {
      NoneBeforeStart(f, k);
    } else {
      SplitBefore(f, p, k);
      if k > 0 && f[k - 1] == p - 1 {
        CollectMapped(a, b, f, p - 1, k - 1);
        if Collect(b, k - 1).Some? { StepMapped(f, Collect(b, k - 1).value, k - 1, b[k - 1]); }
      } else {
        CollectMapped(a, b, f, p - 1, k);
        OtherStays(a, p);
      }
    }
  }

  lemma NoneBeforeStart(f: seq<nat>, k: nat)
    requires SplitAt(f, 0, k)
    ensures k == 0
  {
  }

  lemma OtherStays(a: seq<Mark>, p: nat)
    requires 0 < p <= |a| && a[p - 1] == Other
    ensures Collect(a, p) == Collect(a, p - 1) && Collected(a, p) == Collected(a, p - 1)
  {
  }

  function Without(b: seq<Pair>, j: nat): (rest: seq<Pair>)
    requires j < |b|
    ensures multiset(rest) == multiset(b) - multiset{b[j]}
  {
    assert b == b[..j] + [b[j]] + b[j + 1..];
    b[..j] + b[j + 1..]
  }

  lemma MapWithout(f: seq<nat>, b: seq<Pair>, j: nat)
    requires j < |b|
    ensures multiset(MapPairs(f, b)) == multiset(MapPairs(f, Without(b, j))) + multiset{MapPair(f, b[j])}
  {
    assert MapPairs(f, Without(b, j)) == Without(MapPairs(f, b), j);
  }

  lemma {:induction false} MultisetMapped(f: seq<nat>, a: seq<Pair>, b: seq<Pair>)
    requires multiset(a) == multiset(b)
    ensures multiset(MapPairs(f, a)) == multiset(MapPairs(f, b))
    decreases |a|
  {
    hide MapPairs, Without;
    if a == [] {
      assert |multiset(a)| == |multiset(b)| == |b|;
    } else {
      var j := SameElement(a, b, 0);
      MapWithout(f, a, 0);
      MapWithout(f, b, j);
      assert |Without(a, 0)| == |multiset(a) - multiset{a[0]}|;
      MultisetMapped(f, Without(a, 0), Without(b, j));
    }
  }

  lemma IncreasingOrder(f: seq<nat>, j: nat, k: nat)
    requires Increasing(f) && j < |f| && k < |f|
    ensures f[j] < f[k] <==> j < k
    ensures f[j] == f[k] <==> j == k
  {
  }

  // ----- N0 on the core -----

  /** Idle characters that N0 does not look at: none of them is ON or counts for a side, and
      none came as a mark. */
  ghost predicate Quiet(types: seq<BidiClass>, orig: seq<BidiClass>, levels: seq<Level>, indices: seq<nat>)
    requires |types| == |orig| == |levels| && Bounded(levels, indices)
  {
    forall p :: 0 <= p < |indices| && Idle(orig, levels, indices[p]) ==>
      types[indices[p]] != OtherNeutral && Neutral.SideOf(types[indices[p]]).None? && orig[indices[p]] != NonspacingMark
  }

  /** A sequence as N0 knows it. */
  function CoreRun(run: IsoRun, core: seq<nat>): IsoRun {
    IsoRun([], 0, run.level, run.sos, run.sos, core)
  }

  lemma MarksOfCore(types: seq<BidiClass>, orig: seq<BidiClass>, levels: seq<Level>, paragraph: seq<char>, lookup: BracketTable,
                    indices: seq<nat>, core: seq<nat>, f: seq<nat>)
    requires |types| == |orig| == |levels| == |paragraph| && Bounded(levels, indices) && Bounded(levels, core)
    requires Placed(orig, levels, indices, core, f) && Quiet(types, orig, levels, indices)
    ensures MarksPlaced(Marks(types, paragraph, lookup, indices), Marks(types, paragraph, lookup, core), f)
  {
    hide Idle;
  }

  lemma CollectedOfCore(types: seq<BidiClass>, orig: seq<BidiClass>, levels: seq<Level>, paragraph: seq<char>, lookup: BracketTable,
                        indices: seq<nat>, core: seq<nat>, f: seq<nat>)
    requires |types| == |orig| == |levels| == |paragraph| && Bounded(levels, indices) && Bounded(levels, core)
    requires Placed(orig, levels, indices, core, f) && Quiet(types, orig, levels, indices)
    ensures Collected(Marks(types, paragraph, lookup, indices), |indices|)
         == MapPairing(f, Collected(Marks(types, paragraph, lookup, core), |core|))
  {
    hide Idle, Marks, Collected, Quiet;
    MarksOfCore(types, orig, levels, paragraph, lookup, indices, core, f);
    assert SplitAt(f, |indices|, |f|);
    hide Placed, MarksPlaced;
    CollectMapped(Marks(types, paragraph, lookup, indices), Marks(types, paragraph, lookup, core), f, |indices|, |f|);
  }

  /** What comes before a place of the chain, without what was removed, is what comes before
      it in the core. */
  lemma LiveBefore(types: seq<BidiClass>, orig: seq<BidiClass>, levels: seq<Level>, indices: seq<nat>, k: nat)
    requires |types| == |orig| == |levels| && Bounded(levels, indices) && SeparatorLast(orig, levels, indices)
    requires k < |Core(orig, levels, indices)|
    ensures Places(orig, levels, indices)[k] < |indices|
    ensures Live(types, levels, indices[..Places(orig, levels, indices)[k]]) == Live(types, levels, Core(orig, levels, indices)[..k])
  {
    hide Core, Places, Live;
    PlacesAt(orig, levels, indices);
    var core, f := Core(orig, levels, indices), Places(orig, levels, indices);
    var p := f[k];
    assert !Idle(orig, levels, indices[p]);
    CorePrefix(orig, levels, indices, p);
    var q := |Core(orig, levels, indices[..p])|;
    assert f[q] == f[k];
    IncreasingOrder(f, q, k);
    assert Core(orig, levels, indices[..p]) == core[..k];
    LiveCore(types, orig, levels, indices[..p]);
    NoSeparator(types, orig, levels, indices, p);
  }

  lemma NoSeparator(types: seq<BidiClass>, orig: seq<BidiClass>, levels: seq<Level>, indices: seq<nat>, p: nat)
    requires |types| == |orig| == |levels| && Bounded(levels, indices) && SeparatorLast(orig, levels, indices) && p < |indices|
    ensures SeparatorLast(orig, levels, indices[..p]) && SeparatorOf(types, orig, levels, indices[..p]) == []
  {
    if p > 0 { assert indices[..p][p - 1] == indices[p - 1]; }
  }

  /** The side of a pair is the same in the core. */
  lemma PairSideOfCore(types: seq<BidiClass>, orig: seq<BidiClass>, levels: seq<Level>, run: IsoRun, p: Pair)
    requires |types| == |orig| == |levels| && Bounded(levels, run.indices) && SeparatorLast(orig, levels, run.indices)
    requires Quiet(types, orig, levels, run.indices)
    requires p.openingPos < p.closingPos < |Core(orig, levels, run.indices)|
    ensures var q := MapPair(Places(orig, levels, run.indices), p);
      && q.openingPos < q.closingPos < |run.indices|
      && PairSide(types, levels, CoreRun(run, Core(orig, levels, run.indices)), p) == PairSide(types, levels, run, q)
  {
    hide Live, Neutral.SideBefore, Core, Places, Idle, SeparatorLast;
    var core, f := Core(orig, levels, run.indices), Places(orig, levels, run.indices);
    PlacesAt(orig, levels, run.indices);
    var q := MapPair(f, p);
    assert f[p.openingPos] < f[p.closingPos];
    LiveBefore(types, orig, levels, run.indices, p.openingPos);
    hide Live;
    forall side: Direction ensures Inside(types, core, p, side) <==> Inside(types, run.indices, q, side) {
      InsideOfCore(types, orig, levels, run.indices, core, f, p, side);
    }
  }

  lemma InsideOfCore(types: seq<BidiClass>, orig: seq<BidiClass>, levels: seq<Level>, indices: seq<nat>, core: seq<nat>, f: seq<nat>,
                     p: Pair, side: Direction)
    requires |types| == |orig| == |levels| && Bounded(levels, indices) && Bounded(levels, core)
    requires Placed(orig, levels, indices, core, f) && Quiet(types, orig, levels, indices)
    requires p.openingPos < p.closingPos < |core|
    ensures f[p.closingPos] < |indices|
    ensures Inside(types, core, p, side) <==> Inside(types, indices, MapPair(f, p), side)
  {
    hide Idle;
    if k :| p.openingPos < k < p.closingPos && Neutral.SideOf(types[core[k]]) == Some(side) {
      assert f[p.openingPos] < f[k] < f[p.closingPos];
    }
    if h :| f[p.openingPos] < h < f[p.closingPos] && Neutral.SideOf(types[indices[h]]) == Some(side) {
      var k :| 0 <= k < |f| && f[k] == h;
      IncreasingOrder(f, p.openingPos, k);
      IncreasingOrder(f, k, p.closingPos);
    }
  }

  /** The k-th position is a mark, or removed. */
  ghost predicate MarkOrNone(orig: seq<BidiClass>, levels: seq<Level>, indices: seq<nat>, k: nat)
    requires |orig| == |levels| && Bounded(levels, indices)
  {
    k < |indices| && (orig[indices[k]] == NonspacingMark || levels[indices[k]] == NO_LEVEL)
  }

  lemma TrailsMeans(orig: seq<BidiClass>, levels: seq<Level>, indices: seq<nat>, a: nat, k: nat)
    requires |orig| == |levels| && Bounded(levels, indices)
    ensures Trails(orig, levels, indices, a, k) <==>
            a < k < |indices| && orig[indices[k]] == NonspacingMark && forall j: nat :: a < j < k ==> MarkOrNone(orig, levels, indices, j)
  {
    if Trails(orig, levels, indices, a, k) {
      forall j: nat | a < j < k ensures MarkOrNone(orig, levels, indices, j) { }
    } else if a < k < |indices| && orig[indices[k]] == NonspacingMark {
      var j :| a < j < k && !(orig[indices[j]] == NonspacingMark || levels[indices[j]] == NO_LEVEL);
      assert !MarkOrNone(orig, levels, indices, j);
    }
  }

  /** What trails a place, trails it in the core. */
  lemma TrailsOfCore(orig: seq<BidiClass>, levels: seq<Level>, indices: seq<nat>, core: seq<nat>, f: seq<nat>, a: nat, k: nat)
    requires |orig| == |levels| && Bounded(levels, indices) && Bounded(levels, core)
    requires Placed(orig, levels, indices, core, f) && SeparatorLast(orig, levels, indices)
    requires a < |f| && k < |f|
    ensures Trails(orig, levels, indices, f[a], f[k]) <==> Trails(orig, levels, core, a, k)
  {
    hide Trails;
    IncreasingOrder(f, a, k);
    TrailsMeans(orig, levels, indices, f[a], f[k]);
    TrailsMeans(orig, levels, core, a, k);
    assert indices[f[k]] == core[k];
    if Trails(orig, levels, indices, f[a], f[k]) {
      forall j: nat | a < j < k ensures MarkOrNone(orig, levels, core, j) {
        IncreasingOrder(f, a, j);
        IncreasingOrder(f, j, k);
        assert MarkOrNone(orig, levels, indices, f[j]);
      }
    }
    if Trails(orig, levels, core, a, k) {
      forall h: nat | f[a] < h < f[k] ensures MarkOrNone(orig, levels, indices, h) {
        if !Idle(orig, levels, indices[h]) {
          var j :| 0 <= j < |f| && f[j] == h;
          IncreasingOrder(f, a, j);
          IncreasingOrder(f, j, k);
          assert MarkOrNone(orig, levels, core, j);
        }
      }
    }
  }

  lemma FollowsOfCore(orig: seq<BidiClass>, levels: seq<Level>, indices: seq<nat>, core: seq<nat>, f: seq<nat>, p: Pair, k: nat)
    requires |orig| == |levels| && Bounded(levels, indices) && Bounded(levels, core)
    requires Placed(orig, levels, indices, core, f) && SeparatorLast(orig, levels, indices)
    requires p.openingPos < p.closingPos < |f| && k < |f|
    ensures Follows(orig, levels, indices, MapPair(f, p), f[k]) <==> Follows(orig, levels, core, p, k)
  {
    hide Trails, Placed;
    PlacedIncreasing(orig, levels, indices, core, f);
    IncreasingOrder(f, p.openingPos, k);
    IncreasingOrder(f, p.closingPos, k);
    TrailsOfCore(orig, levels, indices, core, f, p.openingPos, k);
    TrailsOfCore(orig, levels, indices, core, f, p.closingPos, k);
  }

  lemma PlacedIncreasing(orig: seq<BidiClass>, levels: seq<Level>, indices: seq<nat>, core: seq<nat>, f: seq<nat>)
    requires |orig| == |levels| && Bounded(levels, indices) && Placed(orig, levels, indices, core, f)
    ensures Increasing(f) && |f| == |core|
  {
  }

  /** Idle characters do not follow a pair. */
  lemma IdleDoesNotFollow(types: seq<BidiClass>, orig: seq<BidiClass>, levels: seq<Level>, indices: seq<nat>, core: seq<nat>, f: seq<nat>, p: Pair, h: nat)
    requires |types| == |orig| == |levels| && Bounded(levels, indices) && Bounded(levels, core)
    requires Placed(orig, levels, indices, core, f) && Quiet(types, orig, levels, indices)
    requires p.openingPos < p.closingPos < |f| && h < |indices| && Idle(orig, levels, indices[h])
    ensures !Follows(orig, levels, indices, MapPair(f, p), h)
  {
    hide Idle;
    assert orig[indices[h]] != NonspacingMark;
    assert !Idle(orig, levels, indices[f[p.openingPos]]) && !Idle(orig, levels, indices[f[p.closingPos]]);
  }

  lemma PairSetOfCore(types: seq<BidiClass>, after: seq<BidiClass>, orig: seq<BidiClass>, levels: seq<Level>, indices: seq<nat>, p: Pair, bc: BidiClass)
    requires |types| == |orig| == |levels| && Bounded(levels, indices) && SeparatorLast(orig, levels, indices)
    requires Quiet(types, orig, levels, indices) && p.openingPos < p.closingPos < |Core(orig, levels, indices)|
    requires PairSet(types, after, orig, levels, Core(orig, levels, indices), p, bc)
    ensures PairSet(types, after, orig, levels, indices, MapPair(Places(orig, levels, indices), p), bc)
    ensures Quiet(after, orig, levels, indices)
  {
    hide Follows, Core, Places, Idle, SeparatorLast;
    PlacesAt(orig, levels, indices);
    var core, f := Core(orig, levels, indices), Places(orig, levels, indices);
    forall h | 0 <= h < |indices|
      ensures after[indices[h]] == if Follows(orig, levels, indices, MapPair(f, p), h) then bc else types[indices[h]]
      ensures Idle(orig, levels, indices[h]) ==> after[indices[h]] == types[indices[h]]
    {
      InCore(orig, levels, indices, indices[h]);
      if Idle(orig, levels, indices[h]) {
        IdleDoesNotFollow(types, orig, levels, indices, core, f, p, h);
      } else {
        var k :| 0 <= k < |f| && f[k] == h;
        FollowsOfCore(orig, levels, indices, core, f, p, k);
        assert after[core[k]] == if Follows(orig, levels, core, p, k) then bc else types[core[k]];
      }
    }
    forall i | 0 <= i < |types| && i !in indices ensures after[i] == types[i] {
      InCore(orig, levels, indices, i);
    }
  }

  ghost predicate PairsFit(pairs: seq<Pair>, n: nat) {
    forall k :: 0 <= k < |pairs| ==> pairs[k].openingPos < pairs[k].closingPos < n
  }

  lemma MapFits(f: seq<nat>, pairs: seq<Pair>, n: nat)
    requires Increasing(f) && PairsFit(pairs, |f|) && forall k :: 0 <= k < |f| ==> f[k] < n
    ensures PairsFit(MapPairs(f, pairs), n)
    ensures ByOpening(pairs) ==> ByOpening(MapPairs(f, pairs))
  {
  }

  lemma MapPlaces(orig: seq<BidiClass>, levels: seq<Level>, indices: seq<nat>, pairs: seq<Pair>)
    requires |orig| == |levels| && Bounded(levels, indices) && PairsFit(pairs, |Core(orig, levels, indices)|)
    ensures PairsFit(MapPairs(Places(orig, levels, indices), pairs), |indices|)
    ensures ByOpening(pairs) ==> ByOpening(MapPairs(Places(orig, levels, indices), pairs))
  {
    hide Core, Places, Idle;
    PlacesAt(orig, levels, indices);
    MapFits(Places(orig, levels, indices), pairs, |indices|);
  }

  /** Resolving the pairs of the core is resolving those of the chain. */
  lemma {:induction false} PairsOfCore(start: seq<BidiClass>, types: seq<BidiClass>, orig: seq<BidiClass>, levels: seq<Level>, run: IsoRun, pairs: seq<Pair>)
    requires |start| == |orig| == |levels| && Bounded(levels, run.indices) && SeparatorLast(orig, levels, run.indices)
    requires Quiet(start, orig, levels, run.indices) && PairsFit(pairs, |Core(orig, levels, run.indices)|)
    requires PairsResolved(start, types, orig, levels, CoreRun(run, Core(orig, levels, run.indices)), pairs)
    ensures PairsFit(MapPairs(Places(orig, levels, run.indices), pairs), |run.indices|)
    ensures PairsResolved(start, types, orig, levels, run, MapPairs(Places(orig, levels, run.indices), pairs))
    ensures |types| == |start| && Quiet(types, orig, levels, run.indices)
    decreases |pairs|
  {
    hide PairSide, PairSet, Core, Places, Quiet, SeparatorLast;
    var core, f := Core(orig, levels, run.indices), Places(orig, levels, run.indices);
    MapPlaces(orig, levels, run.indices, pairs);
    if pairs != [] {
      var n := |pairs| - 1;
      var before := PairsBefore(start, types, orig, levels, CoreRun(run, core), pairs);
      PairsOfCore(start, before, orig, levels, run, pairs[..n]);
      assert MapPairs(f, pairs)[..n] == MapPairs(f, pairs[..n]);
      PairSideOfCore(before, orig, levels, run, pairs[n]);
      var side := PairSide(before, levels, CoreRun(run, core), pairs[n]);
      if side.Some? { PairSetOfCore(before, types, orig, levels, run.indices, pairs[n], side.value.AsBidiClass()); }
    }
  }

  /** N0 for the core is N0 for the chain. */
  lemma StepOfCore(before: seq<BidiClass>, types: seq<BidiClass>, orig: seq<BidiClass>, levels: seq<Level>,
                   run: IsoRun, paragraph: seq<char>, lookup: BracketTable)
    requires |before| == |orig| == |levels| == |paragraph| && Bounded(levels, run.indices)
    requires SeparatorLast(orig, levels, run.indices) && Quiet(before, orig, levels, run.indices)
    requires OneStep(before, types, orig, levels, CoreRun(run, Core(orig, levels, run.indices)), paragraph, lookup)
    ensures OneStep(before, types, orig, levels, run, paragraph, lookup)
  {
    hide PairsResolved, Core, Places, Quiet, SeparatorLast, Collected, Marks, ByOpening, MapPairs, OneStep, Placed;
    var core, f := Core(orig, levels, run.indices), Places(orig, levels, run.indices);
    var pairs := StepPairs(before, types, orig, levels, CoreRun(run, core), paragraph, lookup);
    PairsOfCore(before, types, orig, levels, run, pairs);
    PlacesAt(orig, levels, run.indices);
    CollectedOfCore(before, orig, levels, paragraph, lookup, run.indices, core, f);
    MultisetMapped(f, pairs, Collected(Marks(before, paragraph, lookup, core), |core|).pairs);
    MapPlaces(orig, levels, run.indices, pairs);
    StepWith(before, types, orig, levels, run, paragraph, lookup, MapPairs(f, pairs));
  }

  lemma StepWith(before: seq<BidiClass>, types: seq<BidiClass>, orig: seq<BidiClass>, levels: seq<Level>,
                 run: IsoRun, paragraph: seq<char>, lookup: BracketTable, pairs: seq<Pair>)
    requires |before| == |orig| == |levels| == |paragraph| && Bounded(levels, run.indices)
    requires SequencePairs(before, paragraph, lookup, run.indices, pairs) && PairsFit(pairs, |run.indices|)
    requires PairsResolved(before, types, orig, levels, run, pairs)
    ensures OneStep(before, types, orig, levels, run, paragraph, lookup)
  {
    hide PairsResolved, SequencePairs;
  }

  /** And the other way round. */
  lemma CoreOfStep(before: seq<BidiClass>, types: seq<BidiClass>, orig: seq<BidiClass>, levels: seq<Level>,
                   run: IsoRun, paragraph: seq<char>, lookup: BracketTable)
    requires |before| == |orig| == |levels| == |paragraph| && Bounded(levels, run.indices) && Increasing(run.indices)
    requires SeparatorLast(orig, levels, run.indices) && Quiet(before, orig, levels, run.indices)
    requires OneStep(before, types, orig, levels, run, paragraph, lookup)
    ensures OneStep(before, types, orig, levels, CoreRun(run, Core(orig, levels, run.indices)), paragraph, lookup)
  {
    hide OneStep, Core, Quiet, SeparatorLast;
    CoreIncreasing(orig, levels, run.indices);
    var t := OneHasOutcome(before, orig, levels, CoreRun(run, Core(orig, levels, run.indices)), paragraph, lookup);
    StepOfCore(before, t, orig, levels, run, paragraph, lookup);
    OneStepUnique(before, types, t, orig, levels, run, paragraph, lookup);
  }
}
