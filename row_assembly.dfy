/**
 * The row assembler: OCR fragments that look like parts of an MRZ are kept,
 * ordered by their vertical centre, cut into two clusters at the largest
 * vertical gap, and each cluster is read left to right into one row.
 */
module RowAssembly {
  import opened Wrappers
  import opened JavaText
  import opened MrzLines

  /** One recognised text line with its bounding-box centre, left edge and
      height (integer pixels, as the bounding box reports them). */
  datatype OcrLine = OcrLine(raw: string, norm: string, centerY: int, left: int, height: int)

  /** The coordinate a sort compares. */
  datatype Axis = Vertical | Horizontal

  function Key(l: OcrLine, axis: Axis): int {
    match axis
    case Vertical => l.centerY
    case Horizontal => l.left
  }

  // ---------------------------------------------------------------------------
  // Collections.sort with a coordinate comparator (a stable sort)

  /** Each line's key is at most the next line's. */
  predicate SortedBy(ls: seq<OcrLine>, axis: Axis) {
    forall i :: 0 <= i < |ls| - 1 ==> Key(ls[i], axis) <= Key(ls[i + 1], axis)
  }

  /** In a sorted list every earlier key is at most every later one. */
  lemma {:induction false} SortedByAllPairs(ls: seq<OcrLine>, axis: Axis, i: nat, j: nat)
    requires SortedBy(ls, axis) && i <= j < |ls|
    ensures Key(ls[i], axis) <= Key(ls[j], axis)
    decreases j - i
  {
    if i < j {
      SortedByAllPairs(ls, axis, i + 1, j);
    }
  }

  /** Puts `x` in front of the first line whose key is not smaller, so that
      it stays ahead of lines with an equal key. */
  function Insert(x: OcrLine, ls: seq<OcrLine>, axis: Axis): (r: seq<OcrLine>)
    ensures |r| == |ls| + 1
  {
    if ls == [] || Key(x, axis) <= Key(ls[0], axis) then [x] + ls
    else [ls[0]] + Insert(x, ls[1..], axis)
  }

  /** The stable sort by one coordinate (insertion from the back, each line
      going in front of the lines with an equal key). */
  function SortBy(ls: seq<OcrLine>, axis: Axis): (r: seq<OcrLine>)
    ensures |r| == |ls|
  {
    if ls == [] then [] else Insert(ls[0], SortBy(ls[1..], axis), axis)
  }

  lemma {:induction false} InsertOrdered(x: OcrLine, ls: seq<OcrLine>, axis: Axis)
    requires SortedBy(ls, axis)
    ensures SortedBy(Insert(x, ls, axis), axis)
    ensures ls != [] ==> Insert(x, ls, axis)[0] in {x, ls[0]}
  {
    if ls != [] && Key(x, axis) > Key(ls[0], axis) {
      var tail := ls[1..];
      assert SortedBy(tail, axis) by {
        forall i | 0 <= i < |tail| - 1 ensures Key(tail[i], axis) <= Key(tail[i + 1], axis) {
          assert tail[i] == ls[i + 1] && tail[i + 1] == ls[i + 2];
        }
      }
      InsertOrdered(x, tail, axis);
      var rest := Insert(x, tail, axis);
      var r := [ls[0]] + rest;
      forall i | 0 <= i < |r| - 1 ensures Key(r[i], axis) <= Key(r[i + 1], axis) {
        if i > 0 {
          assert r[i] == rest[i - 1] && r[i + 1] == rest[i];
        } else if tail != [] {
          assert rest[0] in {x, tail[0]};
          assert tail[0] == ls[1];
        }
      }
    }
  }

  /** The result of the sort is in key order. */
  lemma {:induction false} SortByOrdered(ls: seq<OcrLine>, axis: Axis)
    ensures SortedBy(SortBy(ls, axis), axis)
  {
    if ls != [] {
      SortByOrdered(ls[1..], axis);
      InsertOrdered(ls[0], SortBy(ls[1..], axis), axis);
    }
  }

  lemma {:induction false} InsertPermutes(x: OcrLine, ls: seq<OcrLine>, axis: Axis)
    ensures multiset(Insert(x, ls, axis)) == multiset(ls) + multiset{x}
  {
    if ls != [] && Key(x, axis) > Key(ls[0], axis) {
      InsertPermutes(x, ls[1..], axis);
      assert ls == [ls[0]] + ls[1..];
    }
  }

  /** The sort neither loses nor adds a line. */
  lemma {:induction false} SortByPermutes(ls: seq<OcrLine>, axis: Axis)
    ensures multiset(SortBy(ls, axis)) == multiset(ls)
  {
    if ls != [] {
      SortByPermutes(ls[1..], axis);
      InsertPermutes(ls[0], SortBy(ls[1..], axis), axis);
      assert ls == [ls[0]] + ls[1..];
    }
  }

  /** The lines whose key is `k`, in order. */
  function WithKey(ls: seq<OcrLine>, axis: Axis, k: int): seq<OcrLine> {
    if ls == [] then []
    else (if Key(ls[0], axis) == k then [ls[0]] else []) + WithKey(ls[1..], axis, k)
  }

  lemma {:induction false} InsertStable(x: OcrLine, ls: seq<OcrLine>, axis: Axis, k: int)
    ensures WithKey(Insert(x, ls, axis), axis, k)
         == (if Key(x, axis) == k then [x] else []) + WithKey(ls, axis, k)
  {
    if ls == [] || Key(x, axis) <= Key(ls[0], axis) {
      assert ([x] + ls)[1..] == ls;
    } else {
      InsertStable(x, ls[1..], axis, k);
      var r := [ls[0]] + Insert(x, ls[1..], axis);
      assert r[1..] == Insert(x, ls[1..], axis);
    }
  }

  /** The sort is stable: for every key, the lines carrying it keep their order. */
  lemma {:induction false} SortStable(ls: seq<OcrLine>, axis: Axis, k: int)
    ensures WithKey(SortBy(ls, axis), axis, k) == WithKey(ls, axis, k)
  {
    if ls != [] {
      SortStable(ls[1..], axis, k);
      InsertStable(ls[0], SortBy(ls[1..], axis), axis, k);
    }
  }

  /** Lines already in order are left where they are. */
  lemma {:induction false} SortSorted(ls: seq<OcrLine>, axis: Axis)
    requires SortedBy(ls, axis)
    ensures SortBy(ls, axis) == ls
  {
    if ls != [] {
      var tail := ls[1..];
      assert SortedBy(tail, axis) by {
        forall i | 0 <= i < |tail| - 1 ensures Key(tail[i], axis) <= Key(tail[i + 1], axis) {
          assert tail[i] == ls[i + 1] && tail[i + 1] == ls[i + 2];
        }
      }
      SortSorted(tail, axis);
      if |ls| > 1 {
        assert Key(ls[0], axis) <= Key(tail[0], axis);
      }
      assert [ls[0]] + tail == ls;
    }
  }

  // ---------------------------------------------------------------------------
  // Row assembly

  /** The fragments the assembler keeps: twelve characters or more, or
      enough fillers. */
  predicate Kept(l: OcrLine) {
    |l.norm| >= 12 || LooksLikeMrz(Some(l.norm))
  }

  function KeptLines(ls: seq<OcrLine>): (r: seq<OcrLine>)
    ensures |r| <= |ls|
    ensures forall i :: 0 <= i < |r| ==> Kept(r[i])
  {
    if ls == [] then []
    else (if Kept(ls[0]) then [ls[0]] else []) + KeptLines(ls[1..])
  }

  function Norms(ls: seq<OcrLine>): (r: seq<string>)
    ensures |r| == |ls|
    ensures forall i :: 0 <= i < |ls| ==> r[i] == ls[i].norm
  {
    seq(|ls|, i requires 0 <= i < |ls| => ls[i].norm)
  }

  /** The norms of a cluster, appended left to right. */
  function Joined(ls: seq<OcrLine>): (row: string)
  {
    if ls == [] then "" else Joined(ls[..|ls| - 1]) + ls[|ls| - 1].norm
  }

  /** The number of characters in the norms of some lines. */
  function TotalLength(ls: seq<OcrLine>): nat {
    if ls == [] then 0 else |ls[0].norm| + TotalLength(ls[1..])
  }

  function Gap(ls: seq<OcrLine>, i: nat): int
    requires i + 1 < |ls|
  {
    ls[i + 1].centerY - ls[i].centerY
  }

  /** `k` is the first index of a largest vertical gap. */
  predicate IsFirstMaxGap(ls: seq<OcrLine>, k: nat) {
    && k + 1 < |ls|
    && (forall j :: 0 <= j < |ls| - 1 ==> Gap(ls, j) <= Gap(ls, k))
    && (forall j :: 0 <= j < k ==> Gap(ls, j) < Gap(ls, k))
  }

  /** The first index of a largest gap among the first `n` gaps, found
      scanning left to right. */
  function MaxGapAmong(ls: seq<OcrLine>, n: nat): (k: nat)
    requires 1 <= n < |ls|
    ensures k < n
  {
    if n == 1 then 0
    else
      var k := MaxGapAmong(ls, n - 1);
      if Gap(ls, n - 1) > Gap(ls, k) then n - 1 else k
  }

  /** The first index of a largest vertical gap. */
  function FirstMaxGap(ls: seq<OcrLine>): (k: nat)
    requires |ls| >= 2
    ensures k + 1 < |ls|
  {
    MaxGapAmong(ls, |ls| - 1)
  }

  lemma {:induction false} MaxGapAmongIsFirstLargest(ls: seq<OcrLine>, n: nat)
    requires 1 <= n < |ls|
    ensures var k := MaxGapAmong(ls, n);
      && (forall j :: 0 <= j < n ==> Gap(ls, j) <= Gap(ls, k))
      && (forall j :: 0 <= j < k ==> Gap(ls, j) < Gap(ls, k))
    decreases n
  {
    if n > 1 {
      MaxGapAmongIsFirstLargest(ls, n - 1);
    }
  }

  /** The scan finds the first of the largest gaps. */
  lemma FirstMaxGapIsFirstLargest(ls: seq<OcrLine>)
    requires |ls| >= 2
    ensures IsFirstMaxGap(ls, FirstMaxGap(ls))
  {
    MaxGapAmongIsFirstLargest(ls, |ls| - 1);
  }

  /** buildRowCandidates as a value. Kept fragments in vertical order; with
      at most two of them, their norms ordered by left edge; otherwise two
      rows, the fragments up to the first largest vertical gap and the rest,
      each ordered by left edge and concatenated. */
  function RowCandidates(lines: seq<OcrLine>): (rows: seq<string>)
    ensures |rows| <= 2
    ensures |rows| <= |KeptLines(lines)|
  {
    var kept := KeptLines(lines);
    if kept == [] then []
    else
      var byY := SortBy(kept, Vertical);
      if |byY| <= 2 then Norms(SortBy(byY, Horizontal)) else SplitRows(byY)
  }

  /** The two rows of three or more fragments: cut after the first largest
      gap, each cluster ordered by left edge and concatenated. */
  function SplitRows(byY: seq<OcrLine>): seq<string>
    requires |byY| >= 3
  {
    var k := FirstMaxGap(byY);
    [Joined(SortBy(byY[..k + 1], Horizontal)), Joined(SortBy(byY[k + 1..], Horizontal))]
  }

  // ---------------------------------------------------------------------------
  // The imperative assembler

  /** buildRowCandidates: filter, sort by centre, then either read the (at
      most two) fragments left to right, or cut at the first largest gap
      and concatenate each cluster left to right. */
  method BuildRowCandidates(lines: seq<OcrLine>) returns (rows: seq<string>)
    ensures rows == RowCandidates(lines)
  {
    if |lines| == 0 {
      return [];
    }
    var candidates := KeepCandidates(lines);
    if |candidates| == 0 {
      return [];
    }
    var kept := candidates;
    candidates := SortBy(kept, Vertical);
    SortByOrdered(kept, Vertical);
    if |candidates| <= 2 {
      candidates := SortBy(candidates, Horizontal);
      rows := NormsOf(candidates);
      return;
    }
    var splitIdx := FindSplit(candidates);
    var top := SortBy(candidates[..splitIdx + 1], Horizontal);
    var bottom := SortBy(candidates[splitIdx + 1..], Horizontal);
    var row1 := Concatenate(top);
    var row2 := Concatenate(bottom);
    rows := [row1, row2];
  }

  /** The filter loop: the fragments long enough or with enough fillers, in order. */
  method KeepCandidates(lines: seq<OcrLine>) returns (candidates: seq<OcrLine>)
    ensures candidates == KeptLines(lines)
  {
    candidates := [];
    var n := 0;
    while n < |lines|
      invariant 0 <= n <= |lines|
      invariant candidates == KeptLines(lines[..n])
    {
      var l := lines[n];
      var looks := LooksLikeMrzLine(Some(l.norm));
      KeptLinesSnoc(lines[..n], l);
      assert lines[..n + 1] == lines[..n] + [l];
      if |l.norm| >= 12 || looks {
        candidates := candidates + [l];
      }
      n := n + 1;
    }
    assert lines[..n] == lines;
  }

  /** One step of the gap scan keeps the first largest gap of the gaps seen. */
  lemma FindSplitStep(candidates: seq<OcrLine>, i: nat, splitIdx: int, maxGap: int)
    requires i + 1 < |candidates| && SortedBy(candidates, Vertical)
    requires i == 0 ==> splitIdx == -1 && maxGap == -1
    requires i > 0 ==> 0 <= splitIdx && splitIdx == MaxGapAmong(candidates, i)
    requires i > 0 ==> maxGap == Gap(candidates, splitIdx)
    ensures var gap := candidates[i + 1].centerY - candidates[i].centerY;
      var k := if gap > maxGap then i else splitIdx;
      && 0 <= k && k == MaxGapAmong(candidates, i + 1)
      && (if gap > maxGap then gap else maxGap) == Gap(candidates, k)
  {
    assert Key(candidates[i], Vertical) <= Key(candidates[i + 1], Vertical);
  }

  /** The gap loop: `maxGap` starts at -1, so the first gap (never negative
      in sorted lines) is taken, and a later gap only replaces it when it is
      strictly larger. */
  method FindSplit(candidates: seq<OcrLine>) returns (splitIdx: int)
    requires |candidates| >= 2 && SortedBy(candidates, Vertical)
    ensures splitIdx == FirstMaxGap(candidates)
  {
    splitIdx := -1;
    var maxGap := -1;
    var i := 0;
    while i < |candidates| - 1
      invariant 0 <= i <= |candidates| - 1
      invariant i == 0 ==> splitIdx == -1 && maxGap == -1
      invariant i > 0 ==> 0 <= splitIdx && splitIdx == MaxGapAmong(candidates, i)
      invariant i > 0 ==> maxGap == Gap(candidates, splitIdx)
    {
      var gap := candidates[i + 1].centerY - candidates[i].centerY;
      FindSplitStep(candidates, i, splitIdx, maxGap);
      if gap > maxGap {
        maxGap := gap;
        splitIdx := i;
      }
      i := i + 1;
    }
  }


  /** The loop that lists the norms of at most two fragments. */
  method NormsOf(ls: seq<OcrLine>) returns (rows: seq<string>)
    ensures rows == Norms(ls)
  {
    rows := [];
    var i := 0;
    while i < |ls|
      invariant 0 <= i <= |ls|
      invariant rows == Norms(ls[..i])
    {
      rows := rows + [ls[i].norm];
      i := i + 1;
    }
    assert ls[..i] == ls;
  }

  /** The StringBuilder loop that appends the norms of a cluster. */
  method Concatenate(ls: seq<OcrLine>) returns (row: string)
    ensures row == Joined(ls)
  {
    row := "";
    var i := 0;
    while i < |ls|
      invariant 0 <= i <= |ls|
      invariant row == Joined(ls[..i])
    {
      assert ls[..i + 1][..i] == ls[..i];
      row := row + ls[i].norm;
      i := i + 1;
    }
    assert ls[..i] == ls;
  }

  lemma {:induction false} KeptLinesSnoc(ls: seq<OcrLine>, l: OcrLine)
    ensures KeptLines(ls + [l]) == KeptLines(ls) + (if Kept(l) then [l] else [])
  {
    if ls == [] {
      assert ls + [l] == [l];
      assert [l][1..] == [];
    } else {
      assert (ls + [l])[1..] == ls[1..] + [l];
      KeptLinesSnoc(ls[1..], l);
    }
  }

  // ---------------------------------------------------------------------------
  // What the assembler promises

  /** The filter keeps exactly the fragments that are long enough or carry
      enough fillers, and only fragments of the input. */
  lemma {:induction false} KeptLinesExact(ls: seq<OcrLine>)
    ensures forall l :: l in KeptLines(ls) <==> l in ls && Kept(l)
  {
    if ls != [] {
      KeptLinesExact(ls[1..]);
      assert forall l :: l in ls <==> l == ls[0] || l in ls[1..];
    }
  }

  lemma {:induction false} TotalLengthAppend(a: seq<OcrLine>, b: seq<OcrLine>)
    ensures TotalLength(a + b) == TotalLength(a) + TotalLength(b)
  {
    if a == [] {
      assert a + b == b;
    } else {
      assert (a + b)[1..] == a[1..] + b;
      TotalLengthAppend(a[1..], b);
    }
  }

  lemma {:induction false} JoinedLength(ls: seq<OcrLine>)
    ensures |Joined(ls)| == TotalLength(ls)
  {
    if ls != [] {
      var front := ls[..|ls| - 1];
      JoinedLength(front);
      TotalLengthAppend(front, [ls[|ls| - 1]]);
      assert front + [ls[|ls| - 1]] == ls;
      assert [ls[|ls| - 1]][1..] == [];
    }
  }

  lemma {:induction false} InsertTotalLength(x: OcrLine, ls: seq<OcrLine>, axis: Axis)
    ensures TotalLength(Insert(x, ls, axis)) == |x.norm| + TotalLength(ls)
  {
    if ls != [] && Key(x, axis) > Key(ls[0], axis) {
      InsertTotalLength(x, ls[1..], axis);
      assert ([ls[0]] + Insert(x, ls[1..], axis))[1..] == Insert(x, ls[1..], axis);
    } else {
      assert ([x] + ls)[1..] == ls;
    }
  }

  lemma {:induction false} SortTotalLength(ls: seq<OcrLine>, axis: Axis)
    ensures TotalLength(SortBy(ls, axis)) == TotalLength(ls)
  {
    if ls != [] {
      SortTotalLength(ls[1..], axis);
      InsertTotalLength(ls[0], SortBy(ls[1..], axis), axis);
    }
  }

  /** The two clusters of a split hold all the characters between them. */
  lemma SplitRowsLength(byY: seq<OcrLine>, k: nat)
    requires k + 1 < |byY|
    ensures |Joined(SortBy(byY[..k + 1], Horizontal))| + |Joined(SortBy(byY[k + 1..], Horizontal))|
         == TotalLength(byY)
  {
    var top, bottom := byY[..k + 1], byY[k + 1..];
    JoinedLength(SortBy(top, Horizontal));
    JoinedLength(SortBy(bottom, Horizontal));
    SortTotalLength(top, Horizontal);
    SortTotalLength(bottom, Horizontal);
    TotalLengthAppend(top, bottom);
    assert top + bottom == byY;
  }

  /** `rows` are the two clusters of `byY` cut after gap `k`, each ordered by
      left edge and concatenated. */
  predicate ClusteredAt(byY: seq<OcrLine>, k: nat, rows: seq<string>) {
    && k + 1 < |byY|
    && |rows| == 2
    && rows[0] == Joined(SortBy(byY[..k + 1], Horizontal))
    && rows[1] == Joined(SortBy(byY[k + 1..], Horizontal))
  }

  /** Three or more fragments give two rows, cut after the first largest
      vertical gap, that together hold every character. */
  lemma SplitRowsShape(byY: seq<OcrLine>)
    requires |byY| >= 3
    ensures var rows := SplitRows(byY);
      && |rows| == 2
      && (exists k :: IsFirstMaxGap(byY, k) && ClusteredAt(byY, k, rows))
      && |rows[0]| + |rows[1]| == TotalLength(byY)
  {
    var k := FirstMaxGap(byY);
    FirstMaxGapIsFirstLargest(byY);
    SplitRowsLength(byY, k);
    assert ClusteredAt(byY, k, SplitRows(byY));
  }

  /** With at least three kept fragments the result is two rows, cut after
      the first largest vertical gap, each cluster ordered by left edge, and
      together the rows hold every character of the kept fragments. */
  lemma RowCandidatesSplit(lines: seq<OcrLine>)
    requires |KeptLines(lines)| >= 3
    ensures var byY := SortBy(KeptLines(lines), Vertical);
      var rows := RowCandidates(lines);
      && |rows| == 2
      && (exists k :: IsFirstMaxGap(byY, k) && ClusteredAt(byY, k, rows))
      && |rows[0]| + |rows[1]| == TotalLength(KeptLines(lines))
  {
    var kept := KeptLines(lines);
    SplitRowsShape(SortBy(kept, Vertical));
    SortTotalLength(kept, Vertical);
  }

  /** Sorting one line. */
  lemma SortOne(x: OcrLine, axis: Axis)
    ensures SortBy([x], axis) == [x]
  {
    assert [x][1..] == [];
  }

  /** Sorting two lines swaps them exactly when the first key is larger. */
  lemma SortTwo(x: OcrLine, y: OcrLine, axis: Axis)
    ensures SortBy([x, y], axis) == if Key(x, axis) <= Key(y, axis) then [x, y] else [y, x]
  {
    assert [x, y][1..] == [y];
    SortOne(y, axis);
    assert [y][1..] == [];
    assert Insert(x, [], axis) == [x];
    assert Insert(x, [y], axis) == if Key(x, axis) <= Key(y, axis) then [x, y] else [y] + [x];
  }

  lemma JoinedTwo(x: OcrLine, y: OcrLine)
    ensures Joined([x]) == x.norm
    ensures Joined([x, y]) == x.norm + y.norm
  {
    assert [x][..0] == [];
    assert [x, y][..1] == [x];
  }

  lemma {:induction false} KeptAll(ls: seq<OcrLine>)
    requires forall i :: 0 <= i < |ls| ==> Kept(ls[i])
    ensures KeptLines(ls) == ls
  {
    if ls != [] {
      KeptAll(ls[1..]);
      assert [ls[0]] + ls[1..] == ls;
    }
  }

  /** With one or two kept fragments, each becomes a row of its own: the
      rows are their norms, the one further left first. */
  lemma RowCandidatesFew(lines: seq<OcrLine>)
    requires 1 <= |KeptLines(lines)| <= 2
    ensures var kept := KeptLines(lines);
      var rows := RowCandidates(lines);
      && |rows| == |kept|
      && (|kept| == 1 ==> rows == [kept[0].norm])
      && (|kept| == 2 ==> rows == TwoRowsOrder(kept[0], kept[1]))
  {
    var kept := KeptLines(lines);
    assert RowCandidates(lines) == Norms(SortBy(SortBy(kept, Vertical), Horizontal));
    if |kept| == 1 {
      assert kept == [kept[0]];
      SortedTwiceOne(kept[0]);
    } else {
      assert kept == [kept[0], kept[1]];
      SortedTwiceTwo(kept[0], kept[1]);
    }
  }

  lemma SortedTwiceOne(x: OcrLine)
    ensures Norms(SortBy(SortBy([x], Vertical), Horizontal)) == [x.norm]
  {
    SortOne(x, Vertical);
    SortOne(x, Horizontal);
  }

  /** The order two kept fragments come back in: the one further left
      first; at equal left edges the stable sort keeps the top one first,
      and at equal heights too, the one that came first. */
  function TwoRowsOrder(x: OcrLine, y: OcrLine): seq<string> {
    if x.left < y.left then [x.norm, y.norm]
    else if y.left < x.left then [y.norm, x.norm]
    else if x.centerY <= y.centerY then [x.norm, y.norm]
    else [y.norm, x.norm]
  }

  lemma SortedTwiceTwo(x: OcrLine, y: OcrLine)
    ensures Norms(SortBy(SortBy([x, y], Vertical), Horizontal)) == TwoRowsOrder(x, y)
  {
    SortTwo(x, y, Vertical);
    SortTwo(x, y, Horizontal);
    SortTwo(y, x, Horizontal);
    assert Norms([x, y]) == [x.norm, y.norm];
    assert Norms([y, x]) == [y.norm, x.norm];
  }

  /** Two fragments of the same MRZ line are not joined: each comes back as
      a row of its own, the left one first. */
  lemma TwoFragmentsStayApart(a: OcrLine, b: OcrLine)
    requires Kept(a) && Kept(b) && a.centerY == b.centerY && b.left < a.left
    ensures RowCandidates([a, b]) == [b.norm, a.norm]
  {
    KeptAll([a, b]);
    SortTwo(a, b, Vertical);
    SortTwo(a, b, Horizontal);
  }

  /** Three fragments, two of them side by side on the upper line: the two
      are joined left to right into row 1 and the third is row 2. */
  lemma ThreeFragmentsMerge(a: OcrLine, b: OcrLine, c: OcrLine)
    requires Kept(a) && Kept(b) && Kept(c)
    requires a.centerY == b.centerY < c.centerY && b.left < a.left
    ensures RowCandidates([a, b, c]) == [b.norm + a.norm, c.norm]
  {
    var ls := [a, b, c];
    KeptAll(ls);
    assert SortedBy(ls, Vertical);
    SortSorted(ls, Vertical);
    assert FirstMaxGap(ls) == 1;
    assert ls[..2] == [a, b] && ls[2..] == [c];
    SortTwo(a, b, Horizontal);
    SortOne(c, Horizontal);
    JoinedTwo(b, a);
    JoinedTwo(c, c);
  }

  // ---------------------------------------------------------------------------
  // Fragments without coordinates

  /** Lines without coordinates, as the correction path builds them. */
  function Unplaced(norms: seq<string>): (ls: seq<OcrLine>)
    ensures |ls| == |norms|
    ensures forall i :: 0 <= i < |norms| ==> ls[i] == OcrLine(norms[i], norms[i], 0, 0, 0)
  {
    seq(|norms|, i requires 0 <= i < |norms| => OcrLine(norms[i], norms[i], 0, 0, 0))
  }

  predicate KeptNorm(s: string) {
    |s| >= 12 || LooksLikeMrz(Some(s))
  }

  function KeptNorms(norms: seq<string>): (r: seq<string>)
    ensures |r| <= |norms|
  {
    if norms == [] then []
    else (if KeptNorm(norms[0]) then [norms[0]] else []) + KeptNorms(norms[1..])
  }

  /** The texts glued together in order. */
  function Concat(ss: seq<string>): string {
    if ss == [] then "" else ss[0] + Concat(ss[1..])
  }

  lemma {:induction false} KeptUnplaced(norms: seq<string>)
    ensures KeptLines(Unplaced(norms)) == Unplaced(KeptNorms(norms))
  {
    if norms != [] {
      var ls := Unplaced(norms);
      KeptUnplaced(norms[1..]);
      assert ls[1..] == Unplaced(norms[1..]);
      var head := if KeptNorm(norms[0]) then [norms[0]] else [];
      assert (if Kept(ls[0]) then [ls[0]] else []) == Unplaced(head);
      assert KeptLines(ls) == Unplaced(head) + KeptLines(Unplaced(norms[1..]));
      UnplacedAppend(head, KeptNorms(norms[1..]));
    }
  }

  lemma UnplacedAppend(a: seq<string>, b: seq<string>)
    ensures Unplaced(a + b) == Unplaced(a) + Unplaced(b)
  {
  }

  lemma UnplacedSorted(norms: seq<string>, axis: Axis)
    ensures SortedBy(Unplaced(norms), axis)
    ensures SortBy(Unplaced(norms), axis) == Unplaced(norms)
  {
    SortSorted(Unplaced(norms), axis);
  }

  lemma {:induction false} JoinedUnplaced(norms: seq<string>)
    ensures Joined(Unplaced(norms)) == Concat(norms)
    decreases |norms|
  {
    if norms != [] {
      var ls := Unplaced(norms);
      var front := norms[..|norms| - 1];
      assert ls[..|ls| - 1] == Unplaced(front);
      JoinedUnplaced(front);
      ConcatSnoc(front, norms[|norms| - 1]);
      assert front + [norms[|norms| - 1]] == norms;
    }
  }

  lemma {:induction false} ConcatSnoc(ss: seq<string>, s: string)
    ensures Concat(ss + [s]) == Concat(ss) + s
  {
    if ss == [] {
      assert [s][1..] == [];
    } else {
      assert (ss + [s])[1..] == ss[1..] + [s];
      ConcatSnoc(ss[1..], s);
    }
  }

  /** All gaps between unplaced lines are zero, so the first of them is the
      first largest. */
  lemma FirstMaxGapUnplaced(norms: seq<string>)
    requires |norms| >= 2
    ensures FirstMaxGap(Unplaced(norms)) == 0
  {
    var ls := Unplaced(norms);
    FirstMaxGapIsFirstLargest(ls);
    var k := FirstMaxGap(ls);
    assert Gap(ls, 0) == 0 && Gap(ls, k) == 0;
  }

  /** On lines without coordinates the assembler keeps the input order: the
      kept norms themselves when there are at most two, otherwise the first
      kept norm and the rest glued together. */
  lemma RowCandidatesUnplaced(norms: seq<string>)
    ensures var k := KeptNorms(norms);
      RowCandidates(Unplaced(norms)) == if |k| <= 2 then k else [k[0], Concat(k[1..])]
  {
    var k := KeptNorms(norms);
    KeptUnplaced(norms);
    if k != [] {
      UnplacedSorted(k, Vertical);
      if |k| <= 2 {
        UnplacedFew(k);
        RowsOfSortedFew(Unplaced(norms));
      } else {
        UnplacedMany(k);
        RowsOfSortedMany(Unplaced(norms));
      }
    }
  }

  lemma RowsOfSortedFew(lines: seq<OcrLine>)
    requires var kept := KeptLines(lines); 0 < |kept| <= 2 && SortBy(kept, Vertical) == kept
    ensures RowCandidates(lines) == Norms(SortBy(KeptLines(lines), Horizontal))
  {
  }

  lemma RowsOfSortedMany(lines: seq<OcrLine>)
    requires var kept := KeptLines(lines); |kept| > 2 && SortBy(kept, Vertical) == kept
    requires FirstMaxGap(KeptLines(lines)) == 0
    ensures var kept := KeptLines(lines);
      RowCandidates(lines) == [Joined(SortBy(kept[..1], Horizontal)), Joined(SortBy(kept[1..], Horizontal))]
  {
  }

  lemma UnplacedFew(k: seq<string>)
    requires 0 < |k| <= 2
    ensures Norms(SortBy(Unplaced(k), Horizontal)) == k
  {
    UnplacedSorted(k, Horizontal);
    assert Norms(Unplaced(k)) == k;
  }

  lemma UnplacedMany(k: seq<string>)
    requires |k| >= 3
    ensures var ls := Unplaced(k);
      && FirstMaxGap(ls) == 0
      && Joined(SortBy(ls[..1], Horizontal)) == k[0]
      && Joined(SortBy(ls[1..], Horizontal)) == Concat(k[1..])
  {
    var ls := Unplaced(k);
    FirstMaxGapUnplaced(k);
    assert ls[..1] == Unplaced(k[..1]);
    assert ls[1..] == Unplaced(k[1..]);
    JoinedSortedUnplaced(k[..1]);
    JoinedSortedUnplaced(k[1..]);
    ConcatOne(k[..1]);
  }

  lemma JoinedSortedUnplaced(k: seq<string>)
    ensures Joined(SortBy(Unplaced(k), Horizontal)) == Concat(k)
  {
    UnplacedSorted(k, Horizontal);
    JoinedUnplaced(k);
  }

  lemma ConcatOne(ss: seq<string>)
    requires |ss| == 1
    ensures Concat(ss) == ss[0]
  {
    assert ss[1..] == [];
  }
}
