/** The linear system of the analyser: one row per measured path, counting how often it uses each undirected edge. */
module Analyser {
  import opened MapRange

  type Edge = (int, int)

  datatype MeasuredPath = MeasuredPath(segments: seq<Edge>, cost: real)

  function CanonicalEdge(e: Edge): (c: Edge)
    ensures c.0 <= c.1 && (c == e || c == (e.1, e.0))
  {
    if e.0 > e.1 then (e.1, e.0) else e
  }

  /** Two edges are the same undirected edge exactly if they have the same canonical form. */
  lemma CanonicalIffSameUndirected(e: Edge, f: Edge)
    ensures CanonicalEdge(e) == CanonicalEdge(f) <==> e == f || e == (f.1, f.0)
  {
  }

  method GenerateSegments(nodes: seq<int>) returns (segments: seq<Edge>)
    requires |nodes| > 0
    ensures |segments| == |nodes| - 1
    ensures forall i :: 0 <= i < |segments| ==> segments[i] == (nodes[i], nodes[i + 1])
  {
    segments := [];
    for i := 0 to |nodes| - 1
      invariant |segments| == i
      invariant forall j :: 0 <= j < i ==> segments[j] == (nodes[j], nodes[j + 1])
    {
      segments := segments + [(nodes[i], nodes[i + 1])];
    }
  }

  // ---------- The numbering of the edges ----------

  ghost predicate IsTaken(edgeMap: map<Edge, nat>, i: nat) {
    exists e :: e in edgeMap && edgeMap[e] == i
  }

  /** The edges are numbered from 0 on, without gaps or repetitions. */
  ghost predicate Numbering(edgeMap: map<Edge, nat>) {
    && (forall e :: e in edgeMap ==> edgeMap[e] < |edgeMap|)
    && (forall e, f :: e in edgeMap && f in edgeMap && edgeMap[e] == edgeMap[f] ==> e == f)
    && (forall i: nat :: i < |edgeMap| ==> IsTaken(edgeMap, i))
  }

  ghost predicate UsesEdge(paths: seq<MeasuredPath>, c: Edge) {
    exists i, k :: 0 <= i < |paths| && 0 <= k < |paths[i].segments| && CanonicalEdge(paths[i].segments[k]) == c
  }

  method CollectEdges(paths: seq<MeasuredPath>) returns (edgeSet: set<Edge>)
    ensures forall c :: c in edgeSet <==> UsesEdge(paths, c)
  {
    edgeSet := {};
    for i := 0 to |paths|
      invariant forall c :: c in edgeSet <==> UsesEdge(paths[..i], c)
    {
      ghost var before := edgeSet;
      for k := 0 to |paths[i].segments|
        invariant forall c :: c in edgeSet <==>
                    c in before || exists j :: 0 <= j < k && CanonicalEdge(paths[i].segments[j]) == c
      {
        edgeSet := edgeSet + {CanonicalEdge(paths[i].segments[k])};
      }
      forall c
        ensures c in edgeSet <==> UsesEdge(paths[..i + 1], c)
      {
        UsesOneMore(paths, i, c);
      }
    }
    assert paths[..|paths|] == paths;
  }

  lemma UsesOneMore(paths: seq<MeasuredPath>, n: nat, c: Edge)
    requires n < |paths|
    ensures UsesEdge(paths[..n + 1], c) <==>
            UsesEdge(paths[..n], c)
             || exists j :: 0 <= j < |paths[n].segments| && CanonicalEdge(paths[n].segments[j]) == c
  {
    var a, b := paths[..n], paths[..n + 1];
    if UsesEdge(a, c) {
      var i, k :| 0 <= i < |a| && 0 <= k < |a[i].segments| && CanonicalEdge(a[i].segments[k]) == c;
      assert b[i] == a[i];
    }
    if j :| 0 <= j < |paths[n].segments| && CanonicalEdge(paths[n].segments[j]) == c {
      assert b[n] == paths[n];
    }
  }

  /** buildEdgeMap: the edges of all paths and the target edge, numbered in whatever order the set is ranged over. */
  method BuildEdgeMap(paths: seq<MeasuredPath>, targetStart: int, targetEnd: int)
    returns (edgeMap: map<Edge, nat>, targetEdge: Edge)
    ensures Numbering(edgeMap)
    ensures forall c :: c in edgeMap <==> UsesEdge(paths, c) || c == targetEdge
    ensures targetEdge == CanonicalEdge((targetStart, targetEnd))
    ensures Covers(edgeMap, paths)
  {
    var edgeSet := CollectEdges(paths);
    targetEdge := CanonicalEdge((targetStart, targetEnd));
    edgeSet := edgeSet + {targetEdge};
    edgeMap := map[];
    var i := 0;
    var left := edgeSet;
    while left != {}
      invariant forall c :: c in edgeMap <==> c in edgeSet && c !in left
      invariant forall c :: c in left ==> c in edgeSet
      invariant i == |edgeMap| && Numbering(edgeMap)
      decreases left
    {
      var edge;
      edge, left := NextKey(left);
      NumberNext(edgeMap, edge);
      edgeMap := edgeMap[edge := i];
      i := i + 1;
    }
  }

  lemma NumberNext(edgeMap: map<Edge, nat>, e: Edge)
    requires Numbering(edgeMap) && e !in edgeMap
    ensures Numbering(edgeMap[e := |edgeMap|]) && |edgeMap[e := |edgeMap|]| == |edgeMap| + 1
  {
    var m := edgeMap[e := |edgeMap|];
    forall i: nat | i < |edgeMap| + 1
      ensures IsTaken(m, i)
    {
      if i < |edgeMap| {
        assert IsTaken(edgeMap, i);
        var f :| f in edgeMap && edgeMap[f] == i;
        assert f in m && m[f] == i;
      } else {
        assert m[e] == i;
      }
    }
  }

  // ---------- The matrix ----------

  /** The position of an entry in the flat matrix. */
  function Index(row: nat, col: nat, cols: nat): nat {
    row * cols + col
  }

  lemma IndexInside(row: nat, col: nat, rows: nat, cols: nat)
    requires row < rows && col < cols
    ensures Index(row, col, cols) < rows * cols
  {
    Scale(row, rows - 1, cols);
    Scale(rows - 1, rows, cols);
  }

  lemma IndexInjective(row: nat, col: nat, row': nat, col': nat, cols: nat)
    requires col < cols && col' < cols
    ensures Index(row, col, cols) == Index(row', col', cols) <==> row == row' && col == col'
  {
    if row < row' {
      Scale(row + 1, row', cols);
      Scale(row, row', cols);
    } else if row' < row {
      Scale(row' + 1, row, cols);
      Scale(row', row, cols);
    }
  }

  lemma Scale(a: nat, b: nat, c: nat)
    requires a <= b
    ensures a * c <= b * c
    ensures (a + 1) * c == a * c + c
  {
    assert (b - a) * c >= 0;
  }

  /** How many of the segments are the edge with number `j`. */
  ghost function Uses(segments: seq<Edge>, edgeMap: map<Edge, nat>, j: nat): nat {
    if segments == [] then 0
    else
      var n := |segments| - 1;
      Uses(segments[..n], edgeMap, j) + if IsNumbered(segments[n], edgeMap, j) then 1 else 0
  }

  predicate IsNumbered(e: Edge, edgeMap: map<Edge, nat>, j: nat) {
    CanonicalEdge(e) in edgeMap && edgeMap[CanonicalEdge(e)] == j
  }

  ghost predicate Covers(edgeMap: map<Edge, nat>, paths: seq<MeasuredPath>) {
    forall i, k :: 0 <= i < |paths| && 0 <= k < |paths[i].segments| ==> CanonicalEdge(paths[i].segments[k]) in edgeMap
  }

  /**
   The entry of the matrix in row `i` and column `j`, when rows below `done` and the first `k` segments of row
   `done` have been counted, and `units` rows of the lower block have been set.
   */
  ghost function Wanted(paths: seq<MeasuredPath>, edgeMap: map<Edge, nat>, done: nat, k: nat, units: nat, i: nat,
                        j: nat): real
    requires done < |paths| ==> k <= |paths[done].segments|
  {
    if i < |paths| then
      if i < done then Uses(paths[i].segments, edgeMap, j) as real
      else if i == done then Uses(paths[i].segments[..k], edgeMap, j) as real
      else 0.0
    else if i - |paths| < units && i - |paths| == j then 1.0
    else 0.0
  }

  ghost predicate Holds(matrix: seq<real>, paths: seq<MeasuredPath>, edgeMap: map<Edge, nat>, done: nat, k: nat,
                        units: nat)
    requires done < |paths| ==> k <= |paths[done].segments|
  {
    && |matrix| == (|paths| + |edgeMap|) * |edgeMap|
    && forall i: nat, j: nat {:trigger Index(i, j, |edgeMap|)} :: i < |paths| + |edgeMap| && j < |edgeMap| ==>
         Index(i, j, |edgeMap|) < |matrix|
         && matrix[Index(i, j, |edgeMap|)] == Wanted(paths, edgeMap, done, k, units, i, j)
  }

  method BuildMatrix(paths: seq<MeasuredPath>, edgeMap: map<Edge, nat>)
    returns (matrix: array<real>, vector: array<real>)
    requires Numbering(edgeMap) && Covers(edgeMap, paths)
    ensures fresh(matrix) && fresh(vector)
    ensures Holds(matrix[..], paths, edgeMap, |paths|, 0, |edgeMap|)
    ensures RowsAre(matrix[..], paths, edgeMap)
    ensures vector.Length == |paths| + |edgeMap|
    ensures forall i :: 0 <= i < vector.Length ==> vector[i] == if i < |paths| then paths[i].cost else 0.0
  {
    hide Index, Holds, RowsAre, Uses, Numbering, Covers;
    var numEdges, numPaths := |edgeMap|, |paths|;
    var matrixSize := (numPaths + numEdges) * numEdges;
    matrix := new real[matrixSize](_ => 0.0);
    vector := new real[numPaths + numEdges](_ => 0.0);
    StartMatrix(matrix[..], paths, edgeMap);
    for i := 0 to numPaths
      invariant Holds(matrix[..], paths, edgeMap, i, 0, 0)
      invariant forall a :: 0 <= a < vector.Length ==> vector[a] == if a < i then paths[a].cost else 0.0
    {
      CountRow(matrix, paths, edgeMap, i);
      vector[i] := paths[i].cost;
    }
    AddRegularization(matrix, paths, edgeMap);
    AllRows(matrix[..], paths, edgeMap);
  }

  /** The second loop of BuildMatrix: the lower block. */
  method AddRegularization(matrix: array<real>, paths: seq<MeasuredPath>, edgeMap: map<Edge, nat>)
    requires Holds(matrix[..], paths, edgeMap, |paths|, 0, 0)
    modifies matrix
    ensures Holds(matrix[..], paths, edgeMap, |paths|, 0, |edgeMap|)
  {
    hide Index, Holds;
    for i := 0 to |edgeMap|
      invariant Holds(matrix[..], paths, edgeMap, |paths|, 0, i)
    {
      SetUnit(matrix[..], paths, edgeMap, i);
      ghost var before := matrix[..];
      matrix[Index(|paths| + i, i, |edgeMap|)] := 1.0;
      assert matrix[..] == before[Index(|paths| + i, i, |edgeMap|) := 1.0];
    }
  }

  /** The inner loop of BuildMatrix: count the segments of one path. */
  method CountRow(matrix: array<real>, paths: seq<MeasuredPath>, edgeMap: map<Edge, nat>, i: nat)
    requires Numbering(edgeMap) && Covers(edgeMap, paths)
    requires i < |paths| && Holds(matrix[..], paths, edgeMap, i, 0, 0)
    modifies matrix
    ensures Holds(matrix[..], paths, edgeMap, i + 1, 0, 0)
  {
    hide Index, Holds, Numbering, Covers;
    for k := 0 to |paths[i].segments|
      invariant Holds(matrix[..], paths, edgeMap, i, k, 0)
    {
      CountOne(matrix[..], paths, edgeMap, i, k);
      var idx := edgeMap[CanonicalEdge(paths[i].segments[k])];
      ghost var before := matrix[..];
      matrix[Index(i, idx, |edgeMap|)] := matrix[Index(i, idx, |edgeMap|)] + 1.0;
      assert matrix[..] == before[Index(i, idx, |edgeMap|) := before[Index(i, idx, |edgeMap|)] + 1.0];
    }
    RowDone(matrix[..], paths, edgeMap, i);
  }

  lemma StartMatrix(matrix: seq<real>, paths: seq<MeasuredPath>, edgeMap: map<Edge, nat>)
    requires |matrix| == (|paths| + |edgeMap|) * |edgeMap| && forall a :: 0 <= a < |matrix| ==> matrix[a] == 0.0
    ensures Holds(matrix, paths, edgeMap, 0, 0, 0)
  {
    forall i: nat, j: nat | i < |paths| + |edgeMap| && j < |edgeMap|
      ensures Index(i, j, |edgeMap|) < |matrix|
    {
      IndexInside(i, j, |paths| + |edgeMap|, |edgeMap|);
    }
  }

  lemma CountOne(matrix: seq<real>, paths: seq<MeasuredPath>, edgeMap: map<Edge, nat>, i: nat, k: nat)
    requires Numbering(edgeMap) && Covers(edgeMap, paths)
    requires i < |paths| && k < |paths[i].segments| && Holds(matrix, paths, edgeMap, i, k, 0)
    ensures CanonicalEdge(paths[i].segments[k]) in edgeMap
    ensures var at := Index(i, edgeMap[CanonicalEdge(paths[i].segments[k])], |edgeMap|);
            at < |matrix| && Holds(matrix[at := matrix[at] + 1.0], paths, edgeMap, i, k + 1, 0)
  {
    var idx := edgeMap[CanonicalEdge(paths[i].segments[k])];
    var at := Index(i, idx, |edgeMap|);
    var segments := paths[i].segments;
    assert segments[..k + 1][..k] == segments[..k];
    forall a: nat, j: nat | a < |paths| + |edgeMap| && j < |edgeMap|
      ensures Index(a, j, |edgeMap|) < |matrix|
      ensures matrix[at := matrix[at] + 1.0][Index(a, j, |edgeMap|)] == Wanted(paths, edgeMap, i, k + 1, 0, a, j)
    {
      hide Index;
      IndexInjective(a, j, i, idx, |edgeMap|);
    }
  }

  lemma RowDone(matrix: seq<real>, paths: seq<MeasuredPath>, edgeMap: map<Edge, nat>, i: nat)
    requires i < |paths| && Holds(matrix, paths, edgeMap, i, |paths[i].segments|, 0)
    ensures Holds(matrix, paths, edgeMap, i + 1, 0, 0)
  {
    hide Index;
    var segments := paths[i].segments;
    assert segments[..|segments|] == segments;
    assert i + 1 < |paths| ==> paths[i + 1].segments[..0] == [];
  }

  lemma SetUnit(matrix: seq<real>, paths: seq<MeasuredPath>, edgeMap: map<Edge, nat>, i: nat)
    requires i < |edgeMap| && Holds(matrix, paths, edgeMap, |paths|, 0, i)
    ensures Index(|paths| + i, i, |edgeMap|) < |matrix|
    ensures Holds(matrix[Index(|paths| + i, i, |edgeMap|) := 1.0], paths, edgeMap, |paths|, 0, i + 1)
  {
    var at := Index(|paths| + i, i, |edgeMap|);
    forall a: nat, j: nat | a < |paths| + |edgeMap| && j < |edgeMap|
      ensures Index(a, j, |edgeMap|) < |matrix|
      ensures matrix[at := 1.0][Index(a, j, |edgeMap|)] == Wanted(paths, edgeMap, |paths|, 0, i + 1, a, j)
    {
      hide Index;
      IndexInjective(a, j, |paths| + i, i, |edgeMap|);
    }
  }

  // ---------- What the rows mean ----------

  ghost function Dot(a: seq<real>, x: seq<real>): real
    requires |a| == |x|
  {
    if a == [] then 0.0
    else
      var n := |a| - 1;
      Dot(a[..n], x[..n]) + a[n] * x[n]
  }

  /** Row `i` of the filled matrix, one entry per edge, lies between the positions `i * n` and `(i + 1) * n`. */
  ghost predicate RowIs(matrix: seq<real>, paths: seq<MeasuredPath>, edgeMap: map<Edge, nat>, i: nat) {
    && 0 <= i * |edgeMap| <= (i + 1) * |edgeMap| <= |matrix|
    && var row := matrix[i * |edgeMap|..(i + 1) * |edgeMap|];
       && |row| == |edgeMap|
       && forall j: nat :: j < |row| ==>
            row[j] == if i < |paths| then Uses(paths[i].segments, edgeMap, j) as real
                      else if j == i - |paths| then 1.0 else 0.0
  }

  /** Row by row, every entry of the flat matrix is the number of uses, or one or zero in the lower block. */
  ghost predicate RowsAre(matrix: seq<real>, paths: seq<MeasuredPath>, edgeMap: map<Edge, nat>) {
    forall i: nat :: i < |paths| + |edgeMap| ==> RowIs(matrix, paths, edgeMap, i)
  }

  lemma AllRows(matrix: seq<real>, paths: seq<MeasuredPath>, edgeMap: map<Edge, nat>)
    requires Holds(matrix, paths, edgeMap, |paths|, 0, |edgeMap|)
    ensures RowsAre(matrix, paths, edgeMap)
  {
    hide Holds;
    forall i: nat | i < |paths| + |edgeMap|
      ensures RowIs(matrix, paths, edgeMap, i)
    {
      var row := RowSlice(matrix, paths, edgeMap, i);
    }
  }

  lemma RowSlice(matrix: seq<real>, paths: seq<MeasuredPath>, edgeMap: map<Edge, nat>, i: nat)
    returns (row: seq<real>)
    requires Holds(matrix, paths, edgeMap, |paths|, 0, |edgeMap|) && i < |paths| + |edgeMap|
    ensures 0 <= i * |edgeMap| <= (i + 1) * |edgeMap| <= |matrix|
    ensures row == matrix[i * |edgeMap|..(i + 1) * |edgeMap|] && |row| == |edgeMap|
    ensures forall j: nat :: j < |row| ==> row[j] == Wanted(paths, edgeMap, |paths|, 0, |edgeMap|, i, j)
  {
    var n := |edgeMap|;
    Scale(i, i + 1, n);
    Scale(i + 1, |paths| + n, n);
    row := matrix[i * n..(i + 1) * n];
    forall j: nat | j < n
      ensures row[j] == Wanted(paths, edgeMap, |paths|, 0, n, i, j)
    {
      assert Index(i, j, n) == i * n + j;
      assert matrix[Index(i, j, n)] == row[j];
    }
  }

  /** The sum of the weights of the segments, each counted as often as it occurs. */
  ghost function SegmentSum(segments: seq<Edge>, edgeMap: map<Edge, nat>, x: seq<real>): real
    requires forall k :: 0 <= k < |segments| ==>
               CanonicalEdge(segments[k]) in edgeMap && edgeMap[CanonicalEdge(segments[k])] < |x|
  {
    if segments == [] then 0.0
    else
      var n := |segments| - 1;
      SegmentSum(segments[..n], edgeMap, x) + x[edgeMap[CanonicalEdge(segments[n])]]
  }

  /** The number of uses of each edge times its weight, over the first `n` edges. */
  ghost function UseSum(segments: seq<Edge>, edgeMap: map<Edge, nat>, x: seq<real>, n: nat): real
    requires n <= |x|
  {
    if n == 0 then 0.0 else UseSum(segments, edgeMap, x, n - 1) + Uses(segments, edgeMap, n - 1) as real * x[n - 1]
  }

  lemma {:induction false} UseSumStep(segments: seq<Edge>, edgeMap: map<Edge, nat>, x: seq<real>, n: nat)
    requires n <= |x| && segments != []
    requires CanonicalEdge(segments[|segments| - 1]) in edgeMap
    ensures var last := edgeMap[CanonicalEdge(segments[|segments| - 1])];
            UseSum(segments, edgeMap, x, n) ==
            UseSum(segments[..|segments| - 1], edgeMap, x, n) + if last < n then x[last] else 0.0
  {
    if n > 0 {
      UseSumStep(segments, edgeMap, x, n - 1);
    }
  }

  lemma {:induction false} NoUseSum(edgeMap: map<Edge, nat>, x: seq<real>, n: nat)
    requires n <= |x|
    ensures UseSum([], edgeMap, x, n) == 0.0
  {
    if n > 0 {
      NoUseSum(edgeMap, x, n - 1);
    }
  }

  lemma {:induction false} UseSumIsSegmentSum(segments: seq<Edge>, edgeMap: map<Edge, nat>, x: seq<real>)
    requires forall k :: 0 <= k < |segments| ==>
               CanonicalEdge(segments[k]) in edgeMap && edgeMap[CanonicalEdge(segments[k])] < |x|
    ensures UseSum(segments, edgeMap, x, |x|) == SegmentSum(segments, edgeMap, x)
  {
    if segments == [] {
      NoUseSum(edgeMap, x, |x|);
    } else {
      UseSumIsSegmentSum(segments[..|segments| - 1], edgeMap, x);
      UseSumStep(segments, edgeMap, x, |x|);
    }
  }

  /** For every weighting of the edges, a path's row times the weights is the sum of the weights along the path. */
  lemma RowIsPathSum(matrix: seq<real>, paths: seq<MeasuredPath>, edgeMap: map<Edge, nat>, i: nat, x: seq<real>)
    requires Numbering(edgeMap) && Covers(edgeMap, paths) && Holds(matrix, paths, edgeMap, |paths|, 0, |edgeMap|)
    requires i < |paths| && |x| == |edgeMap|
    ensures 0 <= i * |edgeMap| <= (i + 1) * |edgeMap| <= |matrix|
    ensures |matrix[i * |edgeMap|..(i + 1) * |edgeMap|]| == |x|
    ensures Dot(matrix[i * |edgeMap|..(i + 1) * |edgeMap|], x) == SegmentSum(paths[i].segments, edgeMap, x)
  {
    hide Holds, Index;
    var n := |edgeMap|;
    var row := RowSlice(matrix, paths, edgeMap, i);
    assert row[..n] == row && x[..n] == x;
    DotIsUseSum(row, paths[i].segments, edgeMap, x, n);
    UseSumIsSegmentSum(paths[i].segments, edgeMap, x);
  }

  lemma {:induction false} DotIsUseSum(row: seq<real>, segments: seq<Edge>, edgeMap: map<Edge, nat>, x: seq<real>,
                                       n: nat)
    requires n <= |x| == |row|
    requires forall j: nat :: j < n ==> row[j] == Uses(segments, edgeMap, j) as real
    ensures Dot(row[..n], x[..n]) == UseSum(segments, edgeMap, x, n)
  {
    if n > 0 {
      DotIsUseSum(row, segments, edgeMap, x, n - 1);
      assert row[..n][..n - 1] == row[..n - 1] && x[..n][..n - 1] == x[..n - 1];
    }
  }

  /** The lower block is the identity: row `|paths| + i` has its only one at position `i`, and so reads the edge `i`. */
  lemma LowerBlockIsIdentity(matrix: seq<real>, paths: seq<MeasuredPath>, edgeMap: map<Edge, nat>, row: nat, i: nat,
                             x: seq<real>) returns (unit: seq<real>)
    requires Holds(matrix, paths, edgeMap, |paths|, 0, |edgeMap|)
    requires row == |paths| + i && i < |edgeMap| == |x|
    ensures 0 <= row * |edgeMap| <= (row + 1) * |edgeMap| <= |matrix|
    ensures unit == matrix[row * |edgeMap|..(row + 1) * |edgeMap|] && |unit| == |x|
    ensures forall j: nat :: j < |unit| ==> unit[j] == if j == i then 1.0 else 0.0
    ensures Dot(unit, x) == x[i]
  {
    hide Holds, Index;
    var n := |edgeMap|;
    unit := RowSlice(matrix, paths, edgeMap, row);
    assert unit[..n] == unit && x[..n] == x;
    DotUnit(unit, i, x, n);
  }

  lemma {:induction false} DotUnit(unit: seq<real>, i: nat, x: seq<real>, n: nat)
    requires n <= |x| == |unit|
    requires forall j: nat :: j < n ==> unit[j] == if j == i then 1.0 else 0.0
    ensures Dot(unit[..n], x[..n]) == if i < n then x[i] else 0.0
  {
    if n > 0 {
      DotUnit(unit, i, x, n - 1);
      assert unit[..n][..n - 1] == unit[..n - 1] && x[..n][..n - 1] == x[..n - 1];
    }
  }
}
