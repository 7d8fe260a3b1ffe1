/**
 * The heuristic correction search run when no MRZ is found directly: the
 * ten single confusion maps, then pairs of maps, then the aggressive map,
 * each applied to every normalised line and resolved again, stopping at
 * the first attempt that yields a record.
 *
 * Because no confusion touches a filler, a P or a V, and the resolver's
 * guards only read lengths, fillers and a leading P or V, every attempt
 * succeeds exactly when the unmapped lines resolve: the search is decided
 * by its first attempt.
 */
module Corrections {
  import opened Wrappers
  import opened JavaText
  import opened MrzLines
  import opened MrzParser
  import opened Substitutions
  import opened RowAssembly
  import opened Resolver

  /** One attempt of the search. */
  datatype Correction =
    | Single(m: Substitution)
    | Double(first: Substitution, second: Substitution)
    | Aggressive

  /** The ten single maps, in order. */
  function Singles(maps: seq<Substitution>): (cs: seq<Correction>)
    ensures |cs| == |maps|
    ensures forall k :: 0 <= k < |cs| ==> cs[k] == Single(maps[k])
  {
    seq(|maps|, k requires 0 <= k < |maps| => Single(maps[k]))
  }

  /** The inner loop bound: `j < maps.length && j < i + 6`. */
  function PairLimit(maps: seq<Substitution>, i: nat): nat {
    if i + 6 < |maps| then i + 6 else |maps|
  }

  /** The pairs with first map `i`, second map from `j` up to the bound. */
  function PairsWith(maps: seq<Substitution>, i: nat, j: nat): (cs: seq<Correction>)
    requires i < |maps|
    ensures |cs| == if j < PairLimit(maps, i) then PairLimit(maps, i) - j else 0
    decreases |maps| - j
  {
    if j >= PairLimit(maps, i) then []
    else [Double(maps[i], maps[j])] + PairsWith(maps, i, j + 1)
  }

  /** The pairs whose first map is `i` or later, in loop order. */
  function PairsFrom(maps: seq<Substitution>, i: nat): seq<Correction>
    decreases |maps| - i
  {
    if i >= |maps| then [] else PairsWith(maps, i, i + 1) + PairsFrom(maps, i + 1)
  }

  /** Every attempt of tryHeuristicCorrectionsTD3, in the order it makes them. */
  function Plan(): seq<Correction> {
    PlanOf(ConfusionMaps)
  }

  /** The attempts for a list of maps: each map alone, the pairs, then the
      aggressive map. */
  function PlanOf(maps: seq<Substitution>): seq<Correction> {
    Singles(maps) + PairsFrom(maps, 0) + [Aggressive]
  }

  lemma PairsFromSize()
    ensures |PairsFrom(ConfusionMaps, 0)| == 35
  {
    assert |PairsFrom(ConfusionMaps, 9)| == 0;
    assert |PairsFrom(ConfusionMaps, 8)| == 1;
    assert |PairsFrom(ConfusionMaps, 7)| == 3;
    assert |PairsFrom(ConfusionMaps, 6)| == 6;
    assert |PairsFrom(ConfusionMaps, 5)| == 10;
    assert |PairsFrom(ConfusionMaps, 4)| == 15;
    assert |PairsFrom(ConfusionMaps, 3)| == 20;
    assert |PairsFrom(ConfusionMaps, 2)| == 25;
    assert |PairsFrom(ConfusionMaps, 1)| == 30;
  }

  /** Ten single maps, 35 pairs and the aggressive map: 46 attempts, the
      first of them O read as 0. */
  lemma PlanShape()
    ensures |Plan()| == 46
    ensures Plan()[0] == Single(Substitution('O', '0'))
    ensures Plan()[45] == Aggressive
  {
    PairsFromSize();
  }

  /** The lines an attempt resolves: applyMapToList once or twice, or
      aggressiveMap on every line. */
  function Corrected(norms: seq<string>, c: Correction): (r: seq<string>)
    ensures |r| == |norms|
  {
    match c
    case Single(m) => MapLines(norms, [m])
    case Double(m1, m2) => MapLines(MapLines(norms, [m1]), [m2])
    case Aggressive => AggressiveLines(norms)
  }

  /** aggressiveMap applied to every line. */
  function AggressiveLines(norms: seq<string>): (r: seq<string>)
    ensures |r| == |norms|
  {
    seq(|norms|, i requires 0 <= i < |norms| => AggressiveMap(Some(norms[i])).value)
  }

  /** One attempt: resolve the corrected lines as lines without coordinates. */
  function Attempt(norms: seq<string>, c: Correction): Option<ParsedMrz> {
    ResolveNorms(Corrected(norms, c))
  }

  /** The record of the first attempt that yields one. */
  function FirstSuccess(norms: seq<string>, plan: seq<Correction>): Option<ParsedMrz> {
    if plan == [] then None
    else if Attempt(norms, plan[0]).Some? then Attempt(norms, plan[0])
    else FirstSuccess(norms, plan[1..])
  }

  // ---------------------------------------------------------------------------
  // The imperative search

  /** An attempt that succeeds ends the search; one that fails passes it on. */
  lemma FirstSuccessStep(norms: seq<string>, rest: seq<Correction>, c: Correction, p: Option<ParsedMrz>)
    requires rest != [] && rest[0] == c && p == Attempt(norms, c)
    ensures p.Some? ==> FirstSuccess(norms, rest) == p
    ensures p.None? ==> FirstSuccess(norms, rest) == FirstSuccess(norms, rest[1..])
  {
  }

  lemma SinglesRest(maps: seq<Substitution>, k: nat)
    requires k < |maps|
    ensures var rest := Singles(maps)[k..];
      rest != [] && rest[0] == Single(maps[k]) && rest[1..] == Singles(maps)[k + 1..]
  {
  }

  lemma PairsEnter(maps: seq<Substitution>, i: nat)
    requires i < |maps|
    ensures PairsFrom(maps, i) == PairsWith(maps, i, i + 1) + PairsFrom(maps, i + 1)
  {
  }

  lemma PairsRest(maps: seq<Substitution>, i: nat, j: nat)
    requires i < |maps| && j < PairLimit(maps, i)
    ensures var rest := PairsWith(maps, i, j);
      rest != [] && rest[0] == Double(maps[i], maps[j]) && rest[1..] == PairsWith(maps, i, j + 1)
  {
    var ps := PairsWith(maps, i, j + 1);
    assert PairsWith(maps, i, j) == [Double(maps[i], maps[j])] + ps;
  }


  /** The search over a concatenation tries the first part to its end
      before the second. */
  lemma {:induction false} FirstSuccessAppend(norms: seq<string>, a: seq<Correction>, b: seq<Correction>)
    ensures FirstSuccess(norms, a + b)
         == if FirstSuccess(norms, a).Some? then FirstSuccess(norms, a) else FirstSuccess(norms, b)
  {
    if a != [] {
      assert (a + b)[0] == a[0] && (a + b)[1..] == a[1..] + b;
      FirstSuccessAppend(norms, a[1..], b);
    } else {
      assert a + b == b;
    }
  }

  lemma AggressiveLinesSnoc(norms: seq<string>, n: nat)
    requires n < |norms|
    ensures AggressiveLines(norms[..n + 1]) == AggressiveLines(norms[..n]) + [AggressiveMap(Some(norms[n])).value]
  {
  }

  /** The aggressive pass of the search: aggressiveMap of every line, in order. */
  method AggressiveMapToList(norms: seq<string>) returns (aggressive: seq<string>)
    ensures aggressive == AggressiveLines(norms)
  {
    aggressive := [];
    var n := 0;
    while n < |norms|
      invariant 0 <= n <= |norms|
      invariant aggressive == AggressiveLines(norms[..n])
    {
      AggressiveLinesSnoc(norms, n);
      aggressive := aggressive + [AggressiveMap(Some(norms[n])).value];
      n := n + 1;
    }
    assert norms[..n] == norms;
  }

  /** One single-map attempt: applyMapToList, then resolve. */
  method TrySingle(norms: seq<string>, m: Substitution) returns (p: Option<ParsedMrz>)
    ensures p == Attempt(norms, Single(m))
  {
    var mapped := ApplyMapToList(norms, m.from, m.to);
    p := FindAndParseMrzStringsTD3(mapped);
  }

  /** One two-map attempt: applyMapToList with the first map, then with
      the second, then resolve. */
  method TryDouble(norms: seq<string>, m1: Substitution, m2: Substitution) returns (p: Option<ParsedMrz>)
    ensures p == Attempt(norms, Double(m1, m2))
  {
    var mapped := ApplyMapToList(norms, m1.from, m1.to);
    mapped := ApplyMapToList(mapped, m2.from, m2.to);
    p := FindAndParseMrzStringsTD3(mapped);
  }

  /** The single-map loop of the search: each map applied to every line,
      stopping at the first attempt that yields a record. */
  method TrySingleMaps(norms: seq<string>, maps: seq<Substitution>) returns (r: Option<ParsedMrz>)
    ensures r == FirstSuccess(norms, Singles(maps))
  {
    ghost var rest := Singles(maps)[0..];
    var k := 0;
    while k < |maps|
      invariant 0 <= k <= |maps|
      invariant rest == Singles(maps)[k..]
      invariant FirstSuccess(norms, Singles(maps)) == FirstSuccess(norms, rest)
    {
      var p := TrySingle(norms, maps[k]);
      SinglesRest(maps, k);
      FirstSuccessStep(norms, rest, Single(maps[k]), p);
      if p.Some? {
        return p;
      }
      rest := rest[1..];
      k := k + 1;
    }
    return None;
  }

  /** The inner two-map loop of the search: map `i` then map `j`, for `j`
      from `i + 1` while `j` is below both the number of maps and `i + 6`. */
  method TryPairsWith(norms: seq<string>, maps: seq<Substitution>, i: nat) returns (r: Option<ParsedMrz>)
    requires i < |maps|
    ensures r == FirstSuccess(norms, PairsWith(maps, i, i + 1))
  {
    var j := i + 1;
    while j < |maps| && j < i + 6
      invariant i + 1 <= j <= PairLimit(maps, i)
      invariant FirstSuccess(norms, PairsWith(maps, i, i + 1)) == FirstSuccess(norms, PairsWith(maps, i, j))
    {
      var p := TryDouble(norms, maps[i], maps[j]);
      PairsStep(norms, maps, i, j, p);
      if p.Some? {
        return p;
      }
      j := j + 1;
    }
    return None;
  }

  /** One pair attempt of the inner loop. */
  lemma PairsStep(norms: seq<string>, maps: seq<Substitution>, i: nat, j: nat, p: Option<ParsedMrz>)
    requires i < |maps| && j < PairLimit(maps, i)
    requires p == Attempt(norms, Double(maps[i], maps[j]))
    ensures p.Some? ==> FirstSuccess(norms, PairsWith(maps, i, j)) == p
    ensures p.None? ==> FirstSuccess(norms, PairsWith(maps, i, j)) == FirstSuccess(norms, PairsWith(maps, i, j + 1))
  {
    var rest := PairsWith(maps, i, j);
    PairsRest(maps, i, j);
    FirstSuccessStep(norms, rest, Double(maps[i], maps[j]), p);
  }

  /** The outer two-map loop of the search, over the first map `i`. */
  method TryPairMaps(norms: seq<string>, maps: seq<Substitution>) returns (r: Option<ParsedMrz>)
    ensures r == FirstSuccess(norms, PairsFrom(maps, 0))
  {
    var i := 0;
    while i < |maps|
      invariant 0 <= i <= |maps|
      invariant FirstSuccess(norms, PairsFrom(maps, 0)) == FirstSuccess(norms, PairsFrom(maps, i))
    {
      var p := TryPairsWith(norms, maps, i);
      PairsEnter(maps, i);
      FirstSuccessAppend(norms, PairsWith(maps, i, i + 1), PairsFrom(maps, i + 1));
      if p.Some? {
        return p;
      }
      i := i + 1;
    }
    return None;
  }

  /** The aggressive attempt: aggressiveMap on every line, then resolve. */
  method TryAggressive(norms: seq<string>) returns (p: Option<ParsedMrz>)
    ensures p == Attempt(norms, Aggressive)
  {
    var aggressive := AggressiveMapToList(norms);
    assert aggressive == Corrected(norms, Aggressive);
    p := FindAndParseMrzStringsTD3(aggressive);
  }

  /** The search runs its three phases in order. */
  lemma PlanPhases(norms: seq<string>, maps: seq<Substitution>)
    requires maps == ConfusionMaps
    ensures FirstSuccess(norms, Plan())
         == if FirstSuccess(norms, Singles(maps)).Some? then FirstSuccess(norms, Singles(maps))
            else if FirstSuccess(norms, PairsFrom(maps, 0)).Some? then FirstSuccess(norms, PairsFrom(maps, 0))
            else Attempt(norms, Aggressive)
  {
    FirstSuccessAppend(norms, Singles(maps), PairsFrom(maps, 0));
    FirstSuccessAppend(norms, Singles(maps) + PairsFrom(maps, 0), [Aggressive]);
    FirstSuccessStep(norms, [Aggressive], Aggressive, Attempt(norms, Aggressive));
  }

  /** tryHeuristicCorrectionsTD3: the norms of the lines, then the single
      maps, the pairs and the aggressive map, returning the first record. */
  method TryHeuristicCorrectionsTD3(lines: seq<OcrLine>) returns (r: Option<ParsedMrz>)
    ensures r == FirstSuccess(Norms(lines), Plan())
  {
    var norms := NormsOf(lines);
    var maps := ConfusionMaps;
    PlanPhases(norms, maps);
    var p := TrySingleMaps(norms, maps);
    if p.Some? {
      return p;
    }
    p := TryPairMaps(norms, maps);
    if p.Some? {
      return p;
    }
    r := TryAggressive(norms);
  }

  // ---------------------------------------------------------------------------
  // Corrections keep the shape the resolver reads

  /** An attempt built from harmless substitutions only. */
  predicate HarmlessCorrection(c: Correction) {
    match c
    case Single(m) => Harmless(m)
    case Double(m1, m2) => Harmless(m1) && Harmless(m2)
    case Aggressive => true
  }

  lemma {:induction false} PairsWithHarmless(maps: seq<Substitution>, i: nat, j: nat)
    requires i < |maps| && AllHarmless(maps)
    ensures forall t :: 0 <= t < |PairsWith(maps, i, j)| ==> HarmlessCorrection(PairsWith(maps, i, j)[t])
    decreases |maps| - j
  {
    if j < PairLimit(maps, i) {
      PairsWithHarmless(maps, i, j + 1);
    }
  }

  lemma {:induction false} PairsFromHarmless(maps: seq<Substitution>, i: nat)
    requires AllHarmless(maps)
    ensures forall t :: 0 <= t < |PairsFrom(maps, i)| ==> HarmlessCorrection(PairsFrom(maps, i)[t])
    decreases |maps| - i
  {
    if i < |maps| {
      PairsWithHarmless(maps, i, i + 1);
      PairsFromHarmless(maps, i + 1);
    }
  }

  lemma PlanOfHarmless(maps: seq<Substitution>)
    requires AllHarmless(maps)
    ensures forall t :: 0 <= t < |PlanOf(maps)| ==> HarmlessCorrection(PlanOf(maps)[t])
  {
    PairsFromHarmless(maps, 0);
    var s, p := Singles(maps), PairsFrom(maps, 0);
    forall t | 0 <= t < |PlanOf(maps)| ensures HarmlessCorrection(PlanOf(maps)[t]) {
      if t < |s| {
        assert PlanOf(maps)[t] == s[t];
      } else if t < |s| + |p| {
        assert PlanOf(maps)[t] == p[t - |s|];
      }
    }
  }

  /** No attempt of the search touches a filler, a P or a V. */
  lemma PlanHarmless()
    ensures forall t :: 0 <= t < |Plan()| ==> HarmlessCorrection(Plan()[t])
  {
    ConfusionMapsHarmless();
    PlanOfHarmless(ConfusionMaps);
  }

  lemma MapLinesShape(norms: seq<string>, ms: seq<Substitution>)
    requires AllHarmless(ms)
    ensures SameShapes(norms, MapLines(norms, ms))
  {
    forall i | 0 <= i < |norms| ensures SameShape(norms[i], MapLines(norms, ms)[i]) {
      ApplyAllKeepsShape(norms[i], ms);
    }
  }

  lemma SameShapesTrans(xs: seq<string>, ys: seq<string>, zs: seq<string>)
    requires SameShapes(xs, ys) && SameShapes(ys, zs)
    ensures SameShapes(xs, zs)
  {
  }

  /** A harmless attempt gives lines of the same shapes as the input. */
  lemma CorrectedShape(norms: seq<string>, c: Correction)
    requires HarmlessCorrection(c)
    ensures SameShapes(norms, Corrected(norms, c))
  {
    match c
    case Single(m) =>
      MapLinesShape(norms, [m]);
    case Double(m1, m2) =>
      MapLinesShape(norms, [m1]);
      MapLinesShape(MapLines(norms, [m1]), [m2]);
      SameShapesTrans(norms, MapLines(norms, [m1]), Corrected(norms, c));
    case Aggressive =>
      ConfusionMapsHarmless();
      MapLinesShape(norms, AggressiveOrder);
      forall i | 0 <= i < |norms| ensures AggressiveLines(norms)[i] == MapLines(norms, AggressiveOrder)[i] {
        AggressiveIsAllMaps(norms[i]);
      }
      assert AggressiveLines(norms) == MapLines(norms, AggressiveOrder);
  }

  // ---------------------------------------------------------------------------
  // Texts of the same shapes resolve alike

  lemma {:induction false} KeptNormsShape(xs: seq<string>, ys: seq<string>)
    requires SameShapes(xs, ys)
    ensures SameShapes(KeptNorms(xs), KeptNorms(ys))
  {
    if xs != [] {
      SameShapeLooksAlike(xs[0], ys[0]);
      assert SameShapes(xs[1..], ys[1..]) by {
        forall i | 0 <= i < |xs[1..]| ensures SameShape(xs[1..][i], ys[1..][i]) {
          assert xs[1..][i] == xs[i + 1] && ys[1..][i] == ys[i + 1];
        }
      }
      KeptNormsShape(xs[1..], ys[1..]);
      var kx, ky := KeptNorms(xs[1..]), KeptNorms(ys[1..]);
      if KeptNorm(xs[0]) {
        assert KeptNorms(xs) == [xs[0]] + kx && KeptNorms(ys) == [ys[0]] + ky;
        forall i | 0 <= i < |kx| + 1 ensures SameShape(([xs[0]] + kx)[i], ([ys[0]] + ky)[i]) {
          if i > 0 {
            assert ([xs[0]] + kx)[i] == kx[i - 1] && ([ys[0]] + ky)[i] == ky[i - 1];
          }
        }
      } else {
        assert KeptNorms(xs) == kx && KeptNorms(ys) == ky;
      }
    }
  }

  lemma AppendShape(a: string, b: string, a': string, b': string)
    requires SameShape(a, a') && SameShape(b, b')
    ensures SameShape(a + b, a' + b')
  {
    CountAppend('<', a, b);
    CountAppend('<', a', b');
    if |a| == 0 {
      assert a + b == b && a' + b' == b';
    } else {
      assert (a + b)[0] == a[0] && (a' + b')[0] == a'[0];
    }
  }

  lemma {:induction false} ConcatShape(xs: seq<string>, ys: seq<string>)
    requires SameShapes(xs, ys)
    ensures SameShape(Concat(xs), Concat(ys))
  {
    if xs != [] {
      assert SameShapes(xs[1..], ys[1..]) by {
        forall i | 0 <= i < |xs[1..]| ensures SameShape(xs[1..][i], ys[1..][i]) {
          assert xs[1..][i] == xs[i + 1] && ys[1..][i] == ys[i + 1];
        }
      }
      ConcatShape(xs[1..], ys[1..]);
      AppendShape(xs[0], Concat(xs[1..]), ys[0], Concat(ys[1..]));
    }
  }

  /** Merging all fragments after the first keeps the shapes. */
  lemma MergedRowsShape(kx: seq<string>, ky: seq<string>)
    requires SameShapes(kx, ky) && |kx| > 2
    ensures SameShapes([kx[0], Concat(kx[1..])], [ky[0], Concat(ky[1..])])
  {
    assert SameShapes(kx[1..], ky[1..]) by {
      forall i | 0 <= i < |kx[1..]| ensures SameShape(kx[1..][i], ky[1..][i]) {
        assert kx[1..][i] == kx[i + 1] && ky[1..][i] == ky[i + 1];
      }
    }
    ConcatShape(kx[1..], ky[1..]);
  }

  /** The rows assembled from lines without coordinates keep their shapes. */
  lemma UnplacedRowsShape(xs: seq<string>, ys: seq<string>)
    requires SameShapes(xs, ys)
    ensures SameShapes(RowCandidates(Unplaced(xs)), RowCandidates(Unplaced(ys)))
  {
    RowCandidatesUnplaced(xs);
    RowCandidatesUnplaced(ys);
    KeptNormsShape(xs, ys);
    if |KeptNorms(xs)| > 2 {
      MergedRowsShape(KeptNorms(xs), KeptNorms(ys));
    }
  }

  /** Texts of the same shapes are resolved alike. */
  lemma ResolveNormsByShape(xs: seq<string>, ys: seq<string>)
    requires SameShapes(xs, ys)
    ensures ResolveNorms(xs).Some? <==> ResolveNorms(ys).Some?
  {
    UnplacedRowsShape(xs, ys);
    ResolveByShape(RowCandidates(Unplaced(xs)), RowCandidates(Unplaced(ys)));
  }

  // ---------------------------------------------------------------------------
  // The search is decided by its first attempt

  /** Every attempt of the search succeeds exactly when the unmapped lines
      resolve. */
  lemma AttemptDecided(norms: seq<string>, t: nat)
    requires t < |Plan()|
    ensures Attempt(norms, Plan()[t]).Some? <==> ResolveNorms(norms).Some?
  {
    PlanHarmless();
    CorrectedShape(norms, Plan()[t]);
    ResolveNormsByShape(norms, Corrected(norms, Plan()[t]));
  }

  lemma {:induction false} FirstSuccessNone(norms: seq<string>, plan: seq<Correction>)
    requires forall t :: 0 <= t < |plan| ==> Attempt(norms, plan[t]).None?
    ensures FirstSuccess(norms, plan).None?
  {
    if plan != [] {
      assert Attempt(norms, plan[0]).None?;
      assert forall t :: 0 <= t < |plan[1..]| ==> plan[1..][t] == plan[t + 1];
      FirstSuccessNone(norms, plan[1..]);
    }
  }

  /** The search returns a record exactly when the unmapped lines, read
      without coordinates, resolve, and then it is the record of the first
      attempt, O read as 0: the other 45 attempts are never decisive. */
  lemma SearchDecidedByFirstAttempt(norms: seq<string>)
    ensures FirstSuccess(norms, Plan())
         == if ResolveNorms(norms).Some? then Attempt(norms, Single(Substitution('O', '0'))) else None
  {
    PlanShape();
    AttemptDecided(norms, 0);
    if ResolveNorms(norms).None? {
      forall t | 0 <= t < |Plan()| ensures Attempt(norms, Plan()[t]).None? {
        AttemptDecided(norms, t);
      }
      FirstSuccessNone(norms, Plan());
    }
  }

  /** The corrections cannot rescue the specimen passport rows: their
      second row is refused by the filler rule, and no confusion adds a
      filler. */
  lemma SpecimenNotCorrected()
    ensures FirstSuccess([SpecimenTD3Row1, SpecimenTD3Row2], Plan()).None?
  {
    SpecimenNotResolved();
    SearchDecidedByFirstAttempt([SpecimenTD3Row1, SpecimenTD3Row2]);
  }
}
