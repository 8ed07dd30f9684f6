/**
 * The output node of the assembler, treated as a plain record whose
 * optional fields are `None` when nothing set them, and the caller's
 * overrides, which replace any field they name.
 */
module CallTree {
  import opened Common
  import opened Enums

  datatype CallTreeNode = CallTreeNode(
    callType: CallType,
    failed: bool,
    address: Option<string>,
    value: Option<int>,
    gasLimit: Option<int>,
    gasCost: Option<int>,
    calldata: Option<string>,
    returndata: Option<string>,
    calls: seq<CallTreeNode>)

  /** A node carrying only the base fields. */
  function BaseNode(kind: CallType, failed: bool): CallTreeNode
  {
    CallTreeNode(kind, failed, None, None, None, None, None, None, [])
  }

  /**
   * Caller-supplied keyword arguments: `Some(v)` for a field that is given
   * (`v` may itself be `None`, as `address=None` is), `None` for one that is not.
   */
  datatype Overrides = Overrides(
    callType: Option<CallType>,
    failed: Option<bool>,
    address: Option<Option<string>>,
    value: Option<Option<int>>,
    gasLimit: Option<Option<int>>,
    gasCost: Option<Option<int>>,
    calldata: Option<Option<string>>,
    returndata: Option<Option<string>>,
    calls: Option<seq<CallTreeNode>>)

  const NoOverrides := Overrides(None, None, None, None, None, None, None, None, None)

  /** `{**derived, **overrides}`: every field the overrides give wins. */
  function ApplyOverrides(node: CallTreeNode, ov: Overrides): (r: CallTreeNode)
    ensures ov == NoOverrides ==> r == node
    ensures r.failed == if ov.failed.Some? then ov.failed.value else node.failed
    ensures r.callType == if ov.callType.Some? then ov.callType.value else node.callType
    ensures r.address == if ov.address.Some? then ov.address.value else node.address
    ensures r.value == if ov.value.Some? then ov.value.value else node.value
    ensures r.gasLimit == if ov.gasLimit.Some? then ov.gasLimit.value else node.gasLimit
    ensures r.gasCost == if ov.gasCost.Some? then ov.gasCost.value else node.gasCost
    ensures r.calldata == if ov.calldata.Some? then ov.calldata.value else node.calldata
    ensures r.returndata == if ov.returndata.Some? then ov.returndata.value else node.returndata
    ensures r.calls == if ov.calls.Some? then ov.calls.value else node.calls
  {
    CallTreeNode(
      GetOr(ov.callType, node.callType),
      GetOr(ov.failed, node.failed),
      GetOr(ov.address, node.address),
      GetOr(ov.value, node.value),
      GetOr(ov.gasLimit, node.gasLimit),
      GetOr(ov.gasCost, node.gasCost),
      GetOr(ov.calldata, node.calldata),
      GetOr(ov.returndata, node.returndata),
      GetOr(ov.calls, node.calls))
  }

  /** No overrides changes nothing; applying the same overrides twice is applying them once;
      a given field's final value does not depend on the derived node at all. */
  lemma OverrideLaws(n: CallTreeNode, m: CallTreeNode, ov: Overrides)
    ensures ApplyOverrides(n, NoOverrides) == n
    ensures ApplyOverrides(ApplyOverrides(n, ov), ov) == ApplyOverrides(n, ov)
    ensures ov.callType.Some? ==> ApplyOverrides(n, ov).callType == ApplyOverrides(m, ov).callType == ov.callType.value
    ensures ov.failed.Some? ==> ApplyOverrides(n, ov).failed == ApplyOverrides(m, ov).failed == ov.failed.value
    ensures ov.address.Some? ==> ApplyOverrides(n, ov).address == ApplyOverrides(m, ov).address == ov.address.value
    ensures ov.value.Some? ==> ApplyOverrides(n, ov).value == ApplyOverrides(m, ov).value == ov.value.value
    ensures ov.gasLimit.Some? ==> ApplyOverrides(n, ov).gasLimit == ApplyOverrides(m, ov).gasLimit == ov.gasLimit.value
    ensures ov.calldata.Some? ==> ApplyOverrides(n, ov).calldata == ApplyOverrides(m, ov).calldata == ov.calldata.value
    ensures ov.returndata.Some? ==> ApplyOverrides(n, ov).returndata == ApplyOverrides(m, ov).returndata == ov.returndata.value
    ensures ov.gasCost.Some? ==> ApplyOverrides(n, ov).gasCost == ApplyOverrides(m, ov).gasCost == ov.gasCost.value
    ensures ov.calls.Some? ==> ApplyOverrides(n, ov).calls == ApplyOverrides(m, ov).calls == ov.calls.value
  {
  }
}
