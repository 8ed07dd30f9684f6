/**
 * Gas reports and their merge: a report maps a contract to a map from a
 * method selector to the list of gas costs recorded for it. Merging takes
 * the union of the keys at both levels and concatenates the lists, in the
 * order the reports are given.
 */
module GasMerge {

  type Report<C(==), M(==)> = map<C, map<M, seq<int>>>

  // ----- the specification of the merge -----

  /** The list recorded under (`c`, `m`), or the empty list when there is none. */
  function Lookup<C, M>(r: Report<C, M>, c: C, m: M): seq<int>
  {
    if c in r && m in r[c] then r[c][m] else []
  }

  /** Merge two inner maps: union of the keys, lists of shared keys concatenated. */
  function MergeInner<M>(a: map<M, seq<int>>, b: map<M, seq<int>>): (r: map<M, seq<int>>)
    ensures r.Keys == a.Keys + b.Keys
  {
    map k | k in a.Keys + b.Keys :: if k in a && k in b then a[k] + b[k] else if k in a then a[k] else b[k]
  }

  /** Merge report `b` into report `a`. */
  function MergeTwo<C, M>(a: Report<C, M>, b: Report<C, M>): (r: Report<C, M>)
    ensures a.Keys <= r.Keys && b.Keys <= r.Keys
    ensures forall c :: c in r ==> c in a || c in b
  {
    map c | c in a.Keys + b.Keys ::
      if c in a && c in b then MergeInner(a[c], b[c]) else if c in a then a[c] else b[c]
  }

  /** The merge of a list of reports, folded from the left starting at the empty report. */
  function Merged<C, M>(reports: seq<Report<C, M>>): (r: Report<C, M>)
    ensures reports == [] ==> r == map[]
    ensures |reports| == 1 ==> r == reports[0]
    ensures forall i :: 0 <= i < |reports| ==> reports[i].Keys <= r.Keys
  {
    if reports == [] then map[]
    else
      var init := reports[..|reports| - 1];
      assert forall i :: 0 <= i < |init| ==> init[i] == reports[i];
      MergeTwoEmpty(reports[|reports| - 1]);
      MergeTwo(Merged(init), reports[|reports| - 1])
  }

  /** The concatenation of the lists every report records under (`c`, `m`), in report order. */
  function Column<C, M>(reports: seq<Report<C, M>>, c: C, m: M): seq<int>
  {
    if reports == [] then []
    else Column(reports[..|reports| - 1], c, m) + Lookup(reports[|reports| - 1], c, m)
  }

  /** The sum of the lengths of those lists. */
  function ColumnLength<C, M>(reports: seq<Report<C, M>>, c: C, m: M): nat
  {
    if reports == [] then 0
    else ColumnLength(reports[..|reports| - 1], c, m) + |Lookup(reports[|reports| - 1], c, m)|
  }

  // ----- what merging promises -----

  lemma MergeTwoEmpty<C, M>(r: Report<C, M>)
    ensures MergeTwo(map[], r) == r
  {
  }

  lemma MergeRightEmpty<C, M>(a: Report<C, M>, inner: map<M, seq<int>>)
    ensures MergeTwo(a, map[]) == a
    ensures MergeInner(inner, map[]) == inner
  {
  }

  lemma LookupMergeTwo<C, M>(a: Report<C, M>, b: Report<C, M>, c: C, m: M)
    ensures Lookup(MergeTwo(a, b), c, m) == Lookup(a, c, m) + Lookup(b, c, m)
  {
  }

  /** The merged report records under (`c`, `m`) every report's list for it, concatenated in
      argument order (the empty list when no report has one). */
  lemma {:induction false} MergedLookup<C, M>(reports: seq<Report<C, M>>, c: C, m: M)
    ensures Lookup(Merged(reports), c, m) == Column(reports, c, m)
  {
    if reports != [] {
      var n := |reports| - 1;
      MergedLookup(reports[..n], c, m);
      LookupMergeTwo(Merged(reports[..n]), reports[n], c, m);
    }
  }

  /** So the merged list is exactly as long as the lists it was made of together. */
  lemma {:induction false} MergedLength<C, M>(reports: seq<Report<C, M>>, c: C, m: M)
    ensures |Lookup(Merged(reports), c, m)| == ColumnLength(reports, c, m)
  {
    MergedLookup(reports, c, m);
    ColumnLengthIsLength(reports, c, m);
  }

  lemma {:induction false} ColumnLengthIsLength<C, M>(reports: seq<Report<C, M>>, c: C, m: M)
    ensures |Column(reports, c, m)| == ColumnLength(reports, c, m)
  {
    if reports != [] {
      ColumnLengthIsLength(reports[..|reports| - 1], c, m);
    }
  }

  /** The merged report's contracts are those of all the reports together. */
  lemma {:induction false} MergedOuterKeys<C, M>(reports: seq<Report<C, M>>, c: C)
    ensures c in Merged(reports) <==> exists i :: 0 <= i < |reports| && c in reports[i]
  {
    if reports != [] {
      var n := |reports| - 1;
      var init := reports[..n];
      MergedOuterKeys(init, c);
      if c in Merged(reports) && c !in reports[n] {
        var i :| 0 <= i < n && c in init[i];
        assert reports[i] == init[i];
      }
      if exists i :: 0 <= i < |reports| && c in reports[i] {
        var i :| 0 <= i < |reports| && c in reports[i];
        if i < n {
          assert init[i] == reports[i];
        }
      }
    }
  }

  /** Under each contract, the merged selectors are those recorded under it by any report. */
  lemma {:induction false} MergedInnerKeys<C, M>(reports: seq<Report<C, M>>, c: C, m: M)
    requires c in Merged(reports)
    ensures m in Merged(reports)[c] <==> exists i :: 0 <= i < |reports| && c in reports[i] && m in reports[i][c]
  {
    var n := |reports| - 1;
    var init := reports[..n];
    if c in Merged(init) {
      MergedInnerKeys(init, c, m);
    } else {
      MergedOuterKeys(init, c);
    }
    if m in Merged(reports)[c] && !(c in reports[n] && m in reports[n][c]) {
      var i :| 0 <= i < n && c in init[i] && m in init[i][c];
      assert reports[i] == init[i];
    }
    if exists i :: 0 <= i < |reports| && c in reports[i] && m in reports[i][c] {
      var i :| 0 <= i < |reports| && c in reports[i] && m in reports[i][c];
      if i < n {
        assert init[i] == reports[i];
        MergedOuterKeys(init, c);
      }
    }
  }

  // ----- merge_reports -----

  /** The part of `m` whose keys are in `keys`. */
  function Restrict<K, V>(m: map<K, V>, keys: set<K>): map<K, V>
  {
    map k | k in m && k in keys :: m[k]
  }

  lemma OuterStep<C, M>(before: Report<C, M>, report: Report<C, M>, done: set<C>, c: C)
    requires c in report && c !in done
    ensures MergeTwo(before, Restrict(report, done + {c})) ==
            MergeTwo(before, Restrict(report, done))[c := if c in before then MergeInner(before[c], report[c]) else report[c]]
  {
  }

  /** A contract the merge has not reached yet is as it was before. */
  lemma OuterUntouched<C, M>(before: Report<C, M>, report: Report<C, M>, done: set<C>, c: C)
    requires c !in done
    ensures c in MergeTwo(before, Restrict(report, done)) <==> c in before
    ensures c in before ==> MergeTwo(before, Restrict(report, done))[c] == before[c]
  {
  }

  /** A selector the merge has not reached yet is as it was before. */
  lemma InnerUntouched<M>(a: map<M, seq<int>>, b: map<M, seq<int>>, done: set<M>, k: M)
    requires k !in done
    ensures k in MergeInner(a, Restrict(b, done)) <==> k in a
    ensures k in a ==> MergeInner(a, Restrict(b, done))[k] == a[k]
  {
  }

  lemma InnerStep<M>(a: map<M, seq<int>>, b: map<M, seq<int>>, done: set<M>, k: M)
    requires k in b && k !in done
    ensures MergeInner(a, Restrict(b, done + {k})) ==
            MergeInner(a, Restrict(b, done))[k := if k in a then a[k] + b[k] else b[k]]
  {
  }

  /** The innermost loop: extend the lists under contract `c` of `merged` by those of `inner`,
      adding the selectors `merged` does not have yet. */
  method ExtendSelectors<C, M>(merged: Report<C, M>, c: C, inner: map<M, seq<int>>) returns (out: Report<C, M>)
    requires c in merged
    ensures out == merged[c := MergeInner(merged[c], inner)]
  {
    var current := merged[c];
    var pending := inner.Keys;
    assert Restrict(inner, inner.Keys - pending) == map[];
    MergeRightEmpty(merged, current);
    while pending != {}
      invariant pending <= inner.Keys
      invariant current == MergeInner(merged[c], Restrict(inner, inner.Keys - pending))
      decreases |pending|
    {
      var innerKey :| innerKey in pending;
      ghost var done := inner.Keys - pending;
      InnerStep(merged[c], inner, done, innerKey);
      InnerUntouched(merged[c], inner, done, innerKey);
      if innerKey in current {
        current := current[innerKey := current[innerKey] + inner[innerKey]];
      } else {
        current := current[innerKey := inner[innerKey]];
      }
      assert inner.Keys - (pending - {innerKey}) == done + {innerKey};
      pending := pending - {innerKey};
    }
    assert inner.Keys - pending == inner.Keys;
    assert Restrict(inner, inner.Keys) == inner;
    assert current == MergeInner(merged[c], inner);
    out := merged[c := current];
  }

  /** One pass of the outer loop: merge `report` into `merged`, contract by contract. */
  method MergeInto<C, M>(merged: Report<C, M>, report: Report<C, M>) returns (out: Report<C, M>)
    ensures out == MergeTwo(merged, report)
  {
    out := merged;
    var pending := report.Keys;
    assert Restrict(report, report.Keys - pending) == map[];
    MergeRightEmpty(merged, map[]);
    while pending != {}
      invariant pending <= report.Keys
      invariant out == MergeTwo(merged, Restrict(report, report.Keys - pending))
      decreases |pending|
    {
      var outerKey :| outerKey in pending;
      ghost var done := report.Keys - pending;
      OuterStep(merged, report, done, outerKey);
      OuterUntouched(merged, report, done, outerKey);
      if outerKey !in out {
        out := out[outerKey := report[outerKey]];
      } else {
        out := ExtendSelectors(out, outerKey, report[outerKey]);
      }
      assert report.Keys - (pending - {outerKey}) == done + {outerKey};
      pending := pending - {outerKey};
    }
    assert report.Keys - pending == report.Keys;
    assert Restrict(report, report.Keys) == report;
  }

  /**
   * `merge_reports`: no reports give the empty report, one report is returned as it is;
   * otherwise a copy of the first is extended by each later report in turn.
   */
  method MergeReports<C, M>(reports: seq<Report<C, M>>) returns (merged: Report<C, M>)
    ensures merged == Merged(reports)
  {
    if |reports| == 0 {
      return map[];
    }
    if |reports| == 1 {
      return reports[0];
    }
    merged := reports[0];
    assert reports[..1] == [reports[0]];
    var rest := reports[1..];
    var i := 0;
    while i < |rest|
      invariant 0 <= i <= |rest|
      invariant merged == Merged(reports[..i + 1])
    {
      merged := MergeInto(merged, rest[i]);
      assert reports[..i + 2][..i + 1] == reports[..i + 1];
      i := i + 1;
    }
    assert reports[..|rest| + 1] == reports;
  }
}
