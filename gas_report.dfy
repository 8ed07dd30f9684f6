/**
 * `get_gas_report`: fold a call tree into a gas report keyed by the node's
 * address and the first four elements of its calldata, with the node's own
 * gas cost (when it is set and non-zero) as the recorded list, merged with
 * the reports of its children in order.
 */
module GasReport {
  import opened Common
  import opened CallTree
  import opened GasMerge

  /** Contracts are node addresses (possibly unset); methods are calldata prefixes. */
  type CallReport = Report<Option<string>, string>

  /** A (contract, method) pair. */
  type PairKey = (Option<string>, string)

  // ----- one node on its own -----

  /** `calldata[:4]`: at most the first four elements; an unset calldata reads as empty. */
  function Selector(n: CallTreeNode): (s: string)
    ensures s <= GetOr(n.calldata, "")
    ensures |s| == if |GetOr(n.calldata, "")| < 4 then |GetOr(n.calldata, "")| else 4
  {
    var data := GetOr(n.calldata, "");
    if |data| <= 4 then data else data[..4]
  }

  /** `[gas_cost] if gas_cost else []`: an unset or zero cost records nothing. */
  function OwnCosts(n: CallTreeNode): (costs: seq<int>)
    ensures |costs| <= 1
    ensures |costs| == 1 <==> n.gasCost.Some? && n.gasCost.value != 0
    ensures costs != [] ==> costs[0] == n.gasCost.value
  {
    if n.gasCost.Some? && n.gasCost.value != 0 then [n.gasCost.value] else []
  }

  /** The report of a node without its children. */
  function Own(n: CallTreeNode): (r: CallReport)
    ensures r.Keys == {n.address}
    ensures forall a, s :: Lookup(r, a, s) == if a == n.address && s == Selector(n) then OwnCosts(n) else []
  {
    map[n.address := map[Selector(n) := OwnCosts(n)]]
  }

  // ----- the recursive extraction -----

  /** The node's own report followed by one report per child, in `calls` order. */
  function Reports(t: CallTreeNode): (rs: seq<CallReport>)
    ensures |rs| == |t.calls| + 1
    decreases t, 0
  {
    [Own(t)] + seq(|t.calls|, i requires 0 <= i < |t.calls| => GetGasReport(t.calls[i]))
  }

  function GetGasReport(t: CallTreeNode): (r: CallReport)
    ensures t.address in r
    ensures forall i :: 0 <= i < |t.calls| ==> t.calls[i].address in r
    ensures t.calls == [] ==> r == Own(t)
    decreases t, 1
  {
    var rs := Reports(t);
    assert rs[0] == Own(t);
    assert forall i :: 0 <= i < |t.calls| ==> rs[i + 1] == GetGasReport(t.calls[i]);
    Merged(rs)
  }

  // ----- the reference: the nodes of the tree in pre-order -----

  /** Concatenate a list of lists. */
  function Concat<T>(parts: seq<seq<T>>): seq<T>
  {
    if parts == [] then [] else Concat(parts[..|parts| - 1]) + parts[|parts| - 1]
  }

  /** `[t]`, then the pre-order of each child in turn. */
  function Parts(t: CallTreeNode): (ps: seq<seq<CallTreeNode>>)
    ensures |ps| == |t.calls| + 1
    decreases t, 0
  {
    [[t]] + seq(|t.calls|, i requires 0 <= i < |t.calls| => Preorder(t.calls[i]))
  }

  function Preorder(t: CallTreeNode): seq<CallTreeNode>
    decreases t, 1
  {
    Concat(Parts(t))
  }

  function Key(n: CallTreeNode): PairKey
  {
    (n.address, Selector(n))
  }

  /** The addresses of the nodes. */
  function Addresses(nodes: seq<CallTreeNode>): set<Option<string>>
  {
    set n | n in nodes :: n.address
  }

  /** The (address, selector) keys of the nodes. */
  function NodeKeys(nodes: seq<CallTreeNode>): set<PairKey>
  {
    set n | n in nodes :: Key(n)
  }

  /** The own costs of the nodes recorded under (`a`, `s`), in list order. */
  function CostsAt(nodes: seq<CallTreeNode>, a: Option<string>, s: string): seq<int>
  {
    if nodes == [] then []
    else
      var last := nodes[|nodes| - 1];
      CostsAt(nodes[..|nodes| - 1], a, s) + (if Key(last) == (a, s) then OwnCosts(last) else [])
  }

  /** The number of nodes with a set, non-zero gas cost. */
  function Charged(nodes: seq<CallTreeNode>): nat
  {
    if nodes == [] then 0
    else Charged(nodes[..|nodes| - 1]) + |OwnCosts(nodes[|nodes| - 1])|
  }

  /** The (contract, method) pairs a report has an entry for. */
  function Pairs(r: CallReport): set<PairKey>
  {
    set a, s | a in r.Keys && s in r[a].Keys :: (a, s)
  }

  /** `r` has exactly the contracts, pairs and lists that `nodes` call for. */
  ghost predicate Describes(r: CallReport, nodes: seq<CallTreeNode>)
  {
    && r.Keys == Addresses(nodes)
    && Pairs(r) == NodeKeys(nodes)
    && forall a, s :: Lookup(r, a, s) == CostsAt(nodes, a, s)
  }

  // ----- the proof that extraction describes the pre-order -----

  lemma OwnDescribes(n: CallTreeNode)
    ensures Describes(Own(n), [n])
  {
    assert [n][..0] == [];
    assert Pairs(Own(n)) == {Key(n)};
    assert NodeKeys([n]) == {Key(n)};
  }

  lemma {:induction false} CostsAtAppend(x: seq<CallTreeNode>, y: seq<CallTreeNode>, a: Option<string>, s: string)
    ensures CostsAt(x + y, a, s) == CostsAt(x, a, s) + CostsAt(y, a, s)
  {
    if y == [] {
      assert x + y == x;
    } else {
      var n := |y| - 1;
      CostsAtAppend(x, y[..n], a, s);
      assert (x + y)[..|x + y| - 1] == x + y[..n];
    }
  }

  lemma MergeTwoKeys(a: CallReport, b: CallReport)
    ensures MergeTwo(a, b).Keys == a.Keys + b.Keys
    ensures Pairs(MergeTwo(a, b)) == Pairs(a) + Pairs(b)
  {
    var m := MergeTwo(a, b);
    forall p | p in Pairs(a) + Pairs(b)
      ensures p in Pairs(m)
    {
      assert p.0 in m && p.1 in m[p.0];
    }
  }

  lemma MergeTwoDescribes(r1: CallReport, n1: seq<CallTreeNode>, r2: CallReport, n2: seq<CallTreeNode>)
    requires Describes(r1, n1) && Describes(r2, n2)
    ensures Describes(MergeTwo(r1, r2), n1 + n2)
  {
    MergeTwoKeys(r1, r2);
    assert Addresses(n1 + n2) == Addresses(n1) + Addresses(n2);
    assert NodeKeys(n1 + n2) == NodeKeys(n1) + NodeKeys(n2);
    forall a, s
      ensures Lookup(MergeTwo(r1, r2), a, s) == CostsAt(n1 + n2, a, s)
    {
      LookupMergeTwo(r1, r2, a, s);
      CostsAtAppend(n1, n2, a, s);
    }
  }

  /** Merging reports that describe lists of nodes describes their concatenation. */
  lemma {:induction false} MergedDescribes(rs: seq<CallReport>, ps: seq<seq<CallTreeNode>>)
    requires |rs| == |ps|
    requires forall i :: 0 <= i < |rs| ==> Describes(rs[i], ps[i])
    ensures Describes(Merged(rs), Concat(ps))
  {
    if rs != [] {
      var n := |rs| - 1;
      MergedDescribes(rs[..n], ps[..n]);
      MergeTwoDescribes(Merged(rs[..n]), Concat(ps[..n]), rs[n], ps[n]);
    }
  }

  lemma {:induction false} GasReportDescribes(t: CallTreeNode)
    ensures Describes(GetGasReport(t), Preorder(t))
    decreases t
  {
    var rs := Reports(t);
    var ps := Parts(t);
    forall i | 0 <= i < |rs|
      ensures Describes(rs[i], ps[i])
    {
      if i == 0 {
        OwnDescribes(t);
      } else {
        GasReportDescribes(t.calls[i - 1]);
      }
    }
    MergedDescribes(rs, ps);
  }

  // ----- what the extraction promises -----

  /** Under each (address, selector) pair the report holds the own costs of exactly the nodes
      of the tree with that key, in pre-order: a node before its children, and siblings in
      `calls` order. */
  lemma GasReportLookup(t: CallTreeNode, a: Option<string>, s: string)
    ensures Lookup(GetGasReport(t), a, s) == CostsAt(Preorder(t), a, s)
  {
    GasReportDescribes(t);
  }

  /** The report's contracts are exactly the addresses of the tree's nodes, and its
      (contract, method) pairs exactly the nodes' keys. */
  lemma GasReportKeys(t: CallTreeNode)
    ensures GetGasReport(t).Keys == Addresses(Preorder(t))
    ensures Pairs(GetGasReport(t)) == NodeKeys(Preorder(t))
  {
    GasReportDescribes(t);
  }

  /** Every node of the tree has an entry, even one whose cost records nothing. */
  lemma EveryNodeRecorded(t: CallTreeNode, n: CallTreeNode)
    requires n in Preorder(t)
    ensures n.address in GetGasReport(t)
    ensures Selector(n) in GetGasReport(t)[n.address]
  {
    GasReportDescribes(t);
    assert Key(n) in NodeKeys(Preorder(t));
    var r := GetGasReport(t);
    assert Key(n) in Pairs(r);
    var a, s :| a in r.Keys && s in r[a].Keys && (a, s) == Key(n);
  }

  /** `Preorder` starts at the root ... */
  lemma PreorderRoot(t: CallTreeNode)
    ensures |Preorder(t)| > 0 && Preorder(t)[0] == t
  {
    ConcatFirst(Parts(t));
  }

  /** ... and visits every node of every subtree. */
  lemma PreorderSubtree(t: CallTreeNode, i: int, n: CallTreeNode)
    requires 0 <= i < |t.calls| && n in Preorder(t.calls[i])
    ensures n in Preorder(t)
  {
    ConcatContains(Parts(t), i + 1, n);
  }

  lemma {:induction false} ConcatFirst<T>(parts: seq<seq<T>>)
    requires |parts| > 0 && |parts[0]| > 0
    ensures |Concat(parts)| > 0 && Concat(parts)[0] == parts[0][0]
  {
    var n := |parts| - 1;
    if n > 0 {
      ConcatFirst(parts[..n]);
    } else {
      assert parts[..n] == [];
    }
  }

  lemma {:induction false} ConcatContains<T>(parts: seq<seq<T>>, i: int, x: T)
    requires 0 <= i < |parts| && x in parts[i]
    ensures x in Concat(parts)
  {
    var n := |parts| - 1;
    if i < n {
      ConcatContains(parts[..n], i, x);
    }
  }

  // ----- counting entries -----

  /** The sum of `f` over a finite set. */
  ghost function SumOver<K>(keys: set<K>, f: K -> nat): nat
    decreases |keys|
  {
    if keys == {} then 0 else var k :| k in keys; f(k) + SumOver(keys - {k}, f)
  }

  /** The sum may begin with any element of the set. */
  lemma {:induction false} SumOverRemove<K>(keys: set<K>, f: K -> nat, x: K)
    requires x in keys
    ensures SumOver(keys, f) == f(x) + SumOver(keys - {x}, f)
    decreases |keys|
  {
    var k :| k in keys && SumOver(keys, f) == f(k) + SumOver(keys - {k}, f);
    if k != x {
      SumOverRemove(keys - {k}, f, x);
      SumOverRemove(keys - {x}, f, k);
      assert keys - {k} - {x} == keys - {x} - {k};
    }
  }

  lemma {:induction false} SumOverSame<K>(keys: set<K>, f: K -> nat, g: K -> nat)
    requires forall k :: k in keys ==> f(k) == g(k)
    ensures SumOver(keys, f) == SumOver(keys, g)
    decreases |keys|
  {
    if keys != {} {
      var k :| k in keys;
      SumOverRemove(keys, f, k);
      SumOverRemove(keys, g, k);
      SumOverSame(keys - {k}, f, g);
    }
  }

  /** Adding `d` to one element of the set adds `d` to the sum. */
  lemma SumOverBump<K>(keys: set<K>, f: K -> nat, g: K -> nat, x: K, d: nat)
    requires x in keys
    requires g(x) == f(x) + d
    requires forall k :: k in keys && k != x ==> f(k) == g(k)
    ensures SumOver(keys, g) == SumOver(keys, f) + d
  {
    SumOverRemove(keys, f, x);
    SumOverRemove(keys, g, x);
    SumOverSame(keys - {x}, f, g);
  }

  /** The total number of gas costs recorded in a report. */
  ghost function EntryCount(r: CallReport): nat
  {
    SumOver(Pairs(r), (p: PairKey) => |Lookup(r, p.0, p.1)|)
  }

  /** Summed over any set of keys that covers the nodes, the costs count the charged nodes. */
  lemma {:induction false} CostsSum(keys: set<PairKey>, nodes: seq<CallTreeNode>)
    requires NodeKeys(nodes) <= keys
    ensures SumOver(keys, (p: PairKey) => |CostsAt(nodes, p.0, p.1)|) == Charged(nodes)
  {
    if nodes == [] {
      SumOverSame(keys, (p: PairKey) => |CostsAt(nodes, p.0, p.1)|, (p: PairKey) => 0);
      SumOverZero(keys);
    } else {
      var n := |nodes| - 1;
      var init := nodes[..n];
      assert NodeKeys(init) <= NodeKeys(nodes);
      assert Key(nodes[n]) in NodeKeys(nodes);
      CostsSum(keys, init);
      SumOverBump(keys, (p: PairKey) => |CostsAt(init, p.0, p.1)|, (p: PairKey) => |CostsAt(nodes, p.0, p.1)|,
                  Key(nodes[n]), |OwnCosts(nodes[n])|);
    }
  }

  lemma {:induction false} SumOverZero<K>(keys: set<K>)
    ensures SumOver(keys, k => 0) == 0
    decreases |keys|
  {
    if keys != {} {
      var k :| k in keys;
      SumOverRemove(keys, k => 0, k);
      SumOverZero(keys - {k});
    }
  }

  /** The report records exactly one gas cost per node whose cost is set and non-zero. */
  lemma GasReportEntryCount(t: CallTreeNode)
    ensures EntryCount(GetGasReport(t)) == Charged(Preorder(t))
  {
    var r := GetGasReport(t);
    var nodes := Preorder(t);
    GasReportDescribes(t);
    SumOverSame(Pairs(r), (p: PairKey) => |Lookup(r, p.0, p.1)|, (p: PairKey) => |CostsAt(nodes, p.0, p.1)|);
    CostsSum(Pairs(r), nodes);
  }
}
