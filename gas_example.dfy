/**
 * A call to 0xB whose own cost is 1, with two subcalls: one to 0xC that
 * records no cost, and one back into 0xB under the same selector that costs 7.
 */
module GasExample {
  import opened Common
  import opened Enums
  import opened CallTree
  import opened GasMerge
  import opened GasReport

  const Leaf := CallTreeNode(CALL, true, Some("0xC"), Some(0), Some(256), None, Some("0x"), None, [])

  const Reentry := CallTreeNode(CALL, false, Some("0xB"), Some(0), Some(900), Some(7), Some("0xa9059cbb"), None, [])

  const Top := CallTreeNode(CALL, false, Some("0xB"), Some(0), Some(21000), Some(1), Some("0xa9059cbb00"), None, [Leaf, Reentry])

  /** The first two reports, the call's own and the costless subcall's, side by side. */
  lemma ExampleFirstTwo()
    ensures Merged([Own(Top), Own(Leaf)]) == map[Some("0xB") := map["0xa9" := [1]], Some("0xC") := map["0x" := []]]
  {
    assert Selector(Top) == "0xa9";
    assert Selector(Leaf) == "0x";
    assert [Own(Top), Own(Leaf)][..1] == [Own(Top)];
  }

  /** The list of reports merged at the root: its own, then one per subcall. */
  lemma ExampleReports()
    ensures Reports(Top) == [Own(Top), Own(Leaf), Own(Reentry)]
  {
    var rs := Reports(Top);
    assert rs[1] == GetGasReport(Leaf) == Own(Leaf) && rs[2] == GetGasReport(Reentry) == Own(Reentry);
  }

  /** Merging in the re-entering subcall extends the list under the shared key. */
  lemma ExampleLastMerge()
    ensures MergeTwo(map[Some("0xB") := map["0xa9" := [1]], Some("0xC") := map["0x" := []]], Own(Reentry))
            == map[Some("0xB") := map["0xa9" := [1, 7]], Some("0xC") := map["0x" := []]]
  {
    assert Selector(Reentry) == "0xa9";
    var merged := MergeTwo(map[Some("0xB") := map["0xa9" := [1]], Some("0xC") := map["0x" := []]], Own(Reentry));
    assert [1] + [7] == [1, 7];
    assert MergeInner(map["0xa9" := [1]], map["0xa9" := [7]]) == map["0xa9" := [1, 7]];
    assert merged.Keys == {Some("0xB"), Some("0xC")};
    assert merged[Some("0xB")] == map["0xa9" := [1, 7]];
  }

  /** The two costs under (0xB, "0xa9") are listed parent first; 0xC is present with no costs. */
  lemma ExampleReport()
    ensures GetGasReport(Top) == map[Some("0xB") := map["0xa9" := [1, 7]], Some("0xC") := map["0x" := []]]
  {
    ExampleReports();
    var rs := Reports(Top);
    assert rs[..2] == [Own(Top), Own(Leaf)];
    ExampleFirstTwo();
    ExampleLastMerge();
  }

  /** The tree in pre-order: the call, then its two subcalls in order. */
  lemma ExamplePreorder()
    ensures Preorder(Top) == [Top, Leaf, Reentry]
  {
    assert Preorder(Leaf) == [Leaf] && Preorder(Reentry) == [Reentry] by {
      assert Parts(Leaf) == [[Leaf]];
      assert Parts(Reentry) == [[Reentry]];
      assert [[Leaf]][..0] == [] && [[Reentry]][..0] == [];
    }
    var ps := Parts(Top);
    assert ps[1] == [Leaf] && ps[2] == [Reentry];
    assert ps == [[Top], [Leaf], [Reentry]];
    assert ps[..2][..1] == [[Top]];
    assert Concat(ps[..2]) == [Top, Leaf];
  }

  /** Two of the three nodes are charged, matching the two costs in the report. */
  lemma ExampleCount()
    ensures Charged(Preorder(Top)) == 2
  {
    ExamplePreorder();
    var nodes := [Top, Leaf, Reentry];
    assert nodes[..2] == [Top, Leaf] && nodes[..2][..1] == [Top] && [Top][..0] == [];
    assert |OwnCosts(Top)| == 1 && |OwnCosts(Leaf)| == 0 && |OwnCosts(Reentry)| == 1;
    assert Charged([Top]) == 1;
    assert Charged([Top, Leaf]) == 1;
    assert Charged(nodes) == 2;
  }
}
