/** `fillBeziers`: the curve fan is one filled path made of sub-paths; a
    curve continues the current sub-path when it starts exactly where the
    previous curve ended, and starts a new one (`moveTo`) otherwise. */
module CurveFan {
  import opened Geometry
  import opened Extraction

  /** `next` starts exactly where `prev` ends (both coordinates equal). */
  predicate Joins(prev: Curve, next: Curve)
  {
    next.a == prev.c
  }

  /** Each curve of a sub-path starts where the one before it ends. */
  predicate Chained(path: seq<Curve>)
  {
    forall k :: 0 <= k < |path| - 1 ==> Joins(path[k], path[k + 1])
  }

  /** The curves of the sub-paths, in order. */
  function Flatten(paths: seq<seq<Curve>>): seq<Curve>
  {
    if |paths| == 0 then [] else Flatten(paths[..|paths| - 1]) + paths[|paths| - 1]
  }

  function LastCurve(path: seq<Curve>): Curve
    requires |path| > 0
  {
    path[|path| - 1]
  }

  /** The last curve of the flattened sub-paths is the last curve of the last one. */
  lemma FlattenLast(paths: seq<seq<Curve>>)
    requires |paths| > 0 && |paths[|paths| - 1]| > 0
    ensures |Flatten(paths)| > 0 && LastCurve(Flatten(paths)) == LastCurve(paths[|paths| - 1])
  {
  }

  /** Sub-paths are non-empty and chained, and consecutive sub-paths do
      not join. */
  predicate WellGrouped(paths: seq<seq<Curve>>)
  {
    && (forall k :: 0 <= k < |paths| ==> |paths[k]| > 0 && Chained(paths[k]))
    && (forall k :: 0 <= k < |paths| - 1 ==> !Joins(LastCurve(paths[k]), paths[k + 1][0]))
  }

  /** The sub-paths the curve loop draws. They hold every curve once, in
      order; inside a sub-path every curve joins its predecessor; and a new
      sub-path starts exactly where a curve does not join the previous one. */
  function SubPaths(curves: seq<Curve>): (paths: seq<seq<Curve>>)
    ensures Flatten(paths) == curves
    ensures |paths| == 0 <==> |curves| == 0
    ensures WellGrouped(paths)
    decreases |curves|
  {
    if |curves| == 0 then []
    else
      var n := |curves| - 1;
      var prefix := SubPaths(curves[..n]);
      assert curves == curves[..n] + [curves[n]];
      assert n > 0 ==> LastCurve(prefix[|prefix| - 1]) == curves[n - 1] by {
        if n > 0 {
          FlattenLast(prefix);
          assert curves[..n][n - 1] == curves[n - 1];
        }
      }
      if n > 0 && Joins(curves[n - 1], curves[n]) then
        ExtendLast(prefix, curves[n]);
        prefix[..|prefix| - 1] + [prefix[|prefix| - 1] + [curves[n]]]
      else
        StartNew(prefix, curves[n]);
        prefix + [[curves[n]]]
  }

  lemma ExtendLast(prefix: seq<seq<Curve>>, c: Curve)
    requires WellGrouped(prefix) && |prefix| > 0
    requires Joins(LastCurve(prefix[|prefix| - 1]), c)
    ensures var m := |prefix| - 1;
            var paths := prefix[..m] + [prefix[m] + [c]];
            WellGrouped(paths) && Flatten(paths) == Flatten(prefix) + [c]
  {
    var m := |prefix| - 1;
    var extended := prefix[m] + [c];
    var paths := prefix[..m] + [extended];
    assert paths[..m] == prefix[..m];
    assert Flatten(paths) == Flatten(prefix[..m]) + extended;
    assert Flatten(prefix) == Flatten(prefix[..m]) + prefix[m];
    assert forall k :: 0 <= k < m ==> paths[k] == prefix[k];
    assert Chained(extended) by {
      forall k | 0 <= k < |extended| - 1
        ensures Joins(extended[k], extended[k + 1])
      {
        if k < |prefix[m]| - 1 {
          assert extended[k] == prefix[m][k] && extended[k + 1] == prefix[m][k + 1];
        }
      }
    }
    assert m > 0 ==> extended[0] == prefix[m][0];
  }

  lemma StartNew(prefix: seq<seq<Curve>>, c: Curve)
    requires WellGrouped(prefix)
    requires |prefix| > 0 ==> !Joins(LastCurve(prefix[|prefix| - 1]), c)
    ensures WellGrouped(prefix + [[c]]) && Flatten(prefix + [[c]]) == Flatten(prefix) + [c]
  {
    FlattenSnoc(prefix, [c]);
    GroupedSnoc(prefix, c);
  }

  lemma GroupedSnoc(prefix: seq<seq<Curve>>, c: Curve)
    requires WellGrouped(prefix)
    requires |prefix| > 0 ==> !Joins(LastCurve(prefix[|prefix| - 1]), c)
    ensures WellGrouped(prefix + [[c]])
  {
    var paths := prefix + [[c]];
    assert forall k :: 0 <= k < |prefix| ==> paths[k] == prefix[k];
    assert paths[|prefix|] == [c];
  }

  lemma FlattenSnoc(prefix: seq<seq<Curve>>, path: seq<Curve>)
    ensures Flatten(prefix + [path]) == Flatten(prefix) + path
  {
    assert (prefix + [path])[..|prefix|] == prefix;
  }

  /** A closed chain of curves needs one `moveTo`; a break between every pair
      needs one per curve. */
  lemma SubPathCounts(curves: seq<Curve>)
    ensures Chained(curves) && |curves| > 0 ==> |SubPaths(curves)| == 1
    ensures (forall k :: 0 <= k < |curves| - 1 ==> !Joins(curves[k], curves[k + 1])) ==> |SubPaths(curves)| == |curves|
  {
    ChainIsOnePath(curves);
    if forall k :: 0 <= k < |curves| - 1 ==> !Joins(curves[k], curves[k + 1]) {
      BreaksArePaths(curves);
    }
  }

  lemma ChainIsOnePath(curves: seq<Curve>)
    ensures Chained(curves) && |curves| > 0 ==> |SubPaths(curves)| == 1
  {
    var paths := SubPaths(curves);
    if |paths| > 1 {
      BreakInFlatten(paths);
    }
  }

  lemma BreaksArePaths(curves: seq<Curve>)
    requires forall k :: 0 <= k < |curves| - 1 ==> !Joins(curves[k], curves[k + 1])
    ensures |SubPaths(curves)| == |curves|
  {
    var paths := SubPaths(curves);
    assert Flatten(paths) == curves;
    SingletonPaths(paths);
  }

  /** Two or more well-grouped sub-paths never flatten to one chain: the
      last curve of the next-to-last sub-path does not join the first curve
      of the last one, and the two are adjacent in the flattened list. */
  lemma BreakInFlatten(paths: seq<seq<Curve>>)
    requires WellGrouped(paths) && |paths| > 1
    ensures !Chained(Flatten(paths))
  {
    var m := |paths| - 1;
    var front := paths[..m];
    var f := Flatten(front);
    assert front + [paths[m]] == paths;
    FlattenSnoc(front, paths[m]);
    assert front[m - 1] == paths[m - 1];
    FlattenLast(front);
    var g := Flatten(paths);
    assert g[|f| - 1] == LastCurve(paths[m - 1]);
    assert g[|f|] == paths[m][0];
    assert !Joins(g[|f| - 1], g[|f|]);
  }

  /** Sub-paths of one curve each, when no curve joins its predecessor. */
  lemma SingletonPaths(paths: seq<seq<Curve>>)
    requires forall j :: 0 <= j < |paths| ==> |paths[j]| > 0 && Chained(paths[j])
    requires forall k :: 0 <= k < |Flatten(paths)| - 1 ==> !Joins(Flatten(paths)[k], Flatten(paths)[k + 1])
    ensures |Flatten(paths)| == |paths|
    decreases |paths|
  {
    if |paths| > 0 {
      var m := |paths| - 1;
      var f := Flatten(paths[..m]);
      assert Flatten(paths) == f + paths[m];
      forall k | 0 <= k < |f| - 1
        ensures !Joins(f[k], f[k + 1])
      {
        assert Flatten(paths)[k] == f[k] && Flatten(paths)[k + 1] == f[k + 1];
      }
      assert forall j :: 0 <= j < m ==> paths[..m][j] == paths[j];
      SingletonPaths(paths[..m]);
      JoinAfter(f, paths[m]);
    }
  }

  /** A chained sub-path of two or more curves puts a join right after the
      curves that precede it. */
  lemma JoinAfter(f: seq<Curve>, path: seq<Curve>)
    requires Chained(path)
    ensures |path| > 1 ==> Joins((f + path)[|f|], (f + path)[|f| + 1])
  {
    if |path| > 1 {
      assert (f + path)[|f|] == path[0] && (f + path)[|f| + 1] == path[1];
      assert Joins(path[0], path[1]);
    }
  }
}
