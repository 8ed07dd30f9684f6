/**
 * A two-record transaction: a call from 0xA to 0xB that succeeds, and a
 * nested call from 0xB to 0xC that reverts.
 */
module ParityExample {
  import opened Common
  import opened Enums
  import opened CallTree
  import opened ParityNumeric
  import opened ParityDecode
  import opened ParityTree

  const RawRoot := RawTrace(
    None,
    RawCallAction(Text("0x5208"), None, Some("0xB"), "0xA", Text("0x0"), "call"),
    "0xblock", "call", Some(RawCallResult(Text("0x1"), "0x")), 1, [], "0xtx")

  const RawChild := RawTrace(
    Some("reverted"),
    RawCallAction(Text("0x100"), None, Some("0xC"), "0xB", Text("0x0"), "call"),
    "0xblock", "call", None, 0, [0], "0xtx")

  const Root := ParityTrace(
    None, CallAction(21000, None, Some("0xB"), "0xA", 0, "call"),
    "0xblock", CALL, Some(CallResult(1, "0x")), 1, [], "0xtx")

  const Child := ParityTrace(
    Some("reverted"), CallAction(256, None, Some("0xC"), "0xB", 0, "call"),
    "0xblock", CALL, None, 0, [0], "0xtx")

  /** The gas limit of the root call. */
  lemma ParseRootGas()
    ensures ParseHex("0x5208") == Success(21000)
  {
    assert Digits("0x5208") == "5208";
    assert "5208"[..3] == "520" && "520"[..2] == "52" && "52"[..1] == "5" && "5"[..0] == "";
    assert DigitsValue("5") == 5;
    assert DigitsValue("52") == 82;
    assert DigitsValue("520") == 1312;
  }

  /** The gas limit of the nested call. */
  lemma ParseChildGas()
    ensures ParseHex("0x100") == Success(256)
  {
    assert Digits("0x100") == "100";
    assert "100"[..2] == "10" && "10"[..1] == "1" && "1"[..0] == "";
    assert DigitsValue("1") == 1;
    assert DigitsValue("10") == 16;
  }

  /** The single-digit values: both values sent and the root's gas used. */
  lemma ParseSmall()
    ensures ParseHex("0x0") == Success(0)
    ensures ParseHex("0x1") == Success(1)
  {
    assert Digits("0x0") == "0" && "0"[..0] == "";
    assert Digits("0x1") == "1" && "1"[..0] == "";
  }

  /** The raw root record decodes to `Root`: hex numbers parsed, kind from `callType`. */
  lemma ExampleDecodesRoot()
    ensures DecodeTrace(RawRoot) == Success(Root)
  {
    ParseRootGas();
    ParseSmall();
    assert ToUpper("call") == "CALL";
    assert DecodeAction(RawRoot.action) == Success(Root.action);
    assert DecodeOptionalResult(RawRoot.result) == Success(Root.result);
  }

  /** The raw nested record decodes to `Child`, keeping its error and having no result. */
  lemma ExampleDecodesChild()
    ensures DecodeTrace(RawChild) == Success(Child)
  {
    ParseChildGas();
    ParseSmall();
    assert ToUpper("call") == "CALL";
    assert DecodeAction(RawChild.action) == Success(Child.action);
  }

  /** The root call carries its gas cost and receiver; the reverted child is failed and has no gas cost. */
  lemma ExampleTree()
    ensures var r := GetCalltreeFromParityTrace([Root, Child], None, NoOverrides);
      && r.Success?
      && r.value.callType == CALL && !r.value.failed
      && r.value.address == Some("0xB") && r.value.gasCost == Some(1) && r.value.gasLimit == Some(21000)
      && |r.value.calls| == 1
      && r.value.calls[0].address == Some("0xC") && r.value.calls[0].failed
      && r.value.calls[0].gasCost == None && r.value.calls[0].calls == []
  {
    var traces := [Root, Child];
    assert Children(traces, []) == [Child] by {
      assert IsChildAddress([0], []);
      assert Children(traces[1..], []) == [Child] + Children([], []);
    }
    assert Children(traces, [0]) == [] by {
      assert Children(traces[1..], [0]) == Children([], [0]);
    }
    ProjectTable(Child);
    AssembleOutcome(traces, Child, NoOverrides);
    AssembleNode(traces, Child, NoOverrides);
    ProjectTable(Root);
    ChildTreesAt(traces, Root, 0);
    AssembleOutcome(traces, Root, NoOverrides);
    AssembleNode(traces, Root, NoOverrides);
  }
}
