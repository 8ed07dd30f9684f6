/**
 * Reconstruction of the call tree from the flat, ordered list of decoded
 * Parity records: children by positional-prefix matching on the trace
 * address, kind-dependent field projection, recursion over the children
 * and the caller's overrides applied last.
 */
module ParityTree {
  import opened Common
  import opened Enums
  import opened CallTree
  import opened ParityDecode

  // ----- child derivation -----

  /** `addr` is `parent` with exactly one index appended. */
  predicate IsChildAddress(addr: seq<int>, parent: seq<int>)
  {
    |addr| == |parent| + 1 && addr[..|addr| - 1] == parent
  }

  /** The list comprehension that selects the sub-traces of a record, in list order. */
  function Children(traces: seq<ParityTrace>, parent: seq<int>): (r: seq<ParityTrace>)
    ensures |r| <= |traces|
    ensures forall t :: t in r <==> t in traces && IsChildAddress(t.traceAddress, parent)
  {
    if traces == [] then []
    else
      var head := if IsChildAddress(traces[0].traceAddress, parent) then [traces[0]] else [];
      head + Children(traces[1..], parent)
  }

  /** `r` lists the records of `traces` at positions `pos`. */
  ghost predicate PicksAt(r: seq<ParityTrace>, traces: seq<ParityTrace>, pos: seq<int>)
  {
    |pos| == |r| && forall i :: 0 <= i < |pos| ==> 0 <= pos[i] < |traces| && r[i] == traces[pos[i]]
  }

  ghost predicate Increasing(pos: seq<int>)
  {
    forall i, j :: 0 <= i < j < |pos| ==> pos[i] < pos[j]
  }

  /** `pos` holds exactly the positions of the records of `traces` that are children of `parent`. */
  ghost predicate MatchingPositions(traces: seq<ParityTrace>, parent: seq<int>, pos: seq<int>)
  {
    forall j :: 0 <= j < |traces| ==> (j in pos <==> IsChildAddress(traces[j].traceAddress, parent))
  }

  /** `pos` holds, in increasing order, exactly the positions of the records of `traces`
      that are children of `parent`, and `r` lists the records at those positions. */
  ghost predicate SelectsChildren(r: seq<ParityTrace>, traces: seq<ParityTrace>, parent: seq<int>, pos: seq<int>)
  {
    PicksAt(r, traces, pos) && Increasing(pos) && MatchingPositions(traces, parent, pos)
  }

  /** The children are an order-preserving selection of the record list: every matching
      record, at every position it occupies, appears once, in list order. */
  lemma {:induction false} ChildrenInListOrder(traces: seq<ParityTrace>, parent: seq<int>)
    ensures exists pos :: SelectsChildren(Children(traces, parent), traces, parent, pos)
  {
    if traces == [] {
      assert Children(traces, parent) == [];
      assert SelectsChildren([], traces, parent, []);
    } else {
      var tail := traces[1..];
      ChildrenInListOrder(tail, parent);
      var pos' :| SelectsChildren(Children(tail, parent), tail, parent, pos');
      var matches := IsChildAddress(traces[0].traceAddress, parent);
      var start := if matches then [0] else [];
      var pos := start + Shift(pos');
      assert Children(traces, parent) == (if matches then [traces[0]] else []) + Children(tail, parent);
      ShiftPicks(traces, Children(tail, parent), pos', matches);
      ShiftIncreasing(pos', matches);
      ShiftMatching(traces, parent, pos');
      assert SelectsChildren(Children(traces, parent), traces, parent, pos);
    }
  }

  function Shift(pos: seq<int>): (r: seq<int>)
    ensures |r| == |pos| && forall i :: 0 <= i < |pos| ==> r[i] == pos[i] + 1
  {
    seq(|pos|, i requires 0 <= i < |pos| => pos[i] + 1)
  }

  lemma ShiftPicks(traces: seq<ParityTrace>, r': seq<ParityTrace>, pos': seq<int>, matches: bool)
    requires traces != [] && PicksAt(r', traces[1..], pos')
    ensures PicksAt((if matches then [traces[0]] else []) + r', traces, (if matches then [0] else []) + Shift(pos'))
  {
    var r := (if matches then [traces[0]] else []) + r';
    var pos := (if matches then [0] else []) + Shift(pos');
    var d := if matches then 1 else 0;
    forall i | 0 <= i < |pos|
      ensures 0 <= pos[i] < |traces| && r[i] == traces[pos[i]]
    {
      if i >= d {
        assert pos[i] == pos'[i - d] + 1 && r[i] == r'[i - d];
        assert r'[i - d] == traces[1..][pos'[i - d]];
      }
    }
  }

  lemma ShiftIncreasing(pos': seq<int>, matches: bool)
    requires Increasing(pos') && forall i :: 0 <= i < |pos'| ==> 0 <= pos'[i]
    ensures Increasing((if matches then [0] else []) + Shift(pos'))
  {
    var pos := (if matches then [0] else []) + Shift(pos');
    var d := if matches then 1 else 0;
    forall i, j | 0 <= i < j < |pos|
      ensures pos[i] < pos[j]
    {
      assert pos[j] == pos'[j - d] + 1;
      if i >= d {
        assert pos[i] == pos'[i - d] + 1;
      }
    }
  }

  lemma ShiftMatching(traces: seq<ParityTrace>, parent: seq<int>, pos': seq<int>)
    requires traces != [] && MatchingPositions(traces[1..], parent, pos')
    requires forall i :: 0 <= i < |pos'| ==> 0 <= pos'[i]
    ensures MatchingPositions(traces, parent,
              (if IsChildAddress(traces[0].traceAddress, parent) then [0] else []) + Shift(pos'))
  {
    var tail := traces[1..];
    var shifted := Shift(pos');
    var pos := (if IsChildAddress(traces[0].traceAddress, parent) then [0] else []) + shifted;
    forall j | 0 <= j < |traces|
      ensures j in pos <==> IsChildAddress(traces[j].traceAddress, parent)
    {
      if j == 0 {
        assert 0 !in shifted;
      } else {
        assert traces[j] == tail[j - 1];
        if j - 1 in pos' {
          var i :| 0 <= i < |pos'| && pos'[i] == j - 1;
          assert shifted[i] == j;
        }
        if j in shifted {
          var i :| 0 <= i < |shifted| && shifted[i] == j;
          assert pos'[i] == j - 1;
        }
        assert j in pos <==> j in shifted;
      }
    }
  }

  /** The longest trace address in the list: bounds the depth of the recursion. */
  function MaxAddrLen(traces: seq<ParityTrace>): (m: nat)
    ensures forall t :: t in traces ==> |t.traceAddress| <= m
  {
    if traces == [] then 0
    else
      var rest := MaxAddrLen(traces[1..]);
      if |traces[0].traceAddress| > rest then |traces[0].traceAddress| else rest
  }

  // ----- field projection -----

  // Attribute reads on the action and the result. The source casts without
  // checking, so reading a field the actual variant lacks fails.

  function ActionValue(a: Action): Result<nat>
  {
    if a.SelfDestructAction? then Failure(MissingAttribute("value")) else Success(a.value)
  }

  function ActionInit(a: Action): Result<string>
  {
    if a.CreateAction? then Success(a.init) else Failure(MissingAttribute("init"))
  }

  function ActionReceiver(a: Action): Result<Option<string>>
  {
    if a.CallAction? then Success(a.receiver) else Failure(MissingAttribute("receiver"))
  }

  function ActionAddress(a: Action): Result<string>
  {
    if a.SelfDestructAction? then Success(a.address) else Failure(MissingAttribute("address"))
  }

  function ResultOutput(r: TraceResult): Result<string>
  {
    if r.CallResult? then Success(r.output) else Failure(MissingAttribute("output"))
  }

  function ResultAddress(r: TraceResult): Result<string>
  {
    if r.CreateResult? then Success(r.address) else Failure(MissingAttribute("address"))
  }

  /** The gas used by a present result, or `None` when there is no result. */
  function UsedGas(result: Option<TraceResult>): Option<int>
  {
    match result
    case None => None
    case Some(res) => Some(res.gasUsed)
  }

  /**
   * The node fields derived from one record, by kind: the base fields
   * (`call_type`, `failed`), then the kind's own fields, each `update` in
   * the order the source evaluates it.
   */
  function Project(root: ParityTrace): (r: Result<CallTreeNode>)
    ensures r.Success? ==> && r.value.callType == root.callType
                           && r.value.failed == root.error.Some?
                           && r.value.calls == []
    ensures r.Failure? ==> r.error.MissingAttribute?
  {
    var node := BaseNode(root.callType, root.error.Some?);
    if root.callType == CREATE then
      // `value` is read first; once it is there, so is `gas`.
      var value :- ActionValue(root.action);
      var init :- ActionInit(root.action);
      var node := node.(value := Some(value), gasLimit := Some(root.action.gas), calldata := Some(init));
      match root.result
      case None => Success(node)
      case Some(res) =>
        var address :- ResultAddress(res);
        Success(node.(gasCost := Some(res.gasUsed), address := Some(address)))
    else if IsCallFamily(root.callType) then
      // `receiver` is read first; once it is there the action is a call action and
      // `value`, `gas` and `input` are there too.
      var receiver :- ActionReceiver(root.action);
      var a := root.action;
      var node := node.(address := receiver, value := Some(a.value), gasLimit := Some(a.gas), calldata := a.input);
      match root.result
      case None => Success(node)
      case Some(res) =>
        var output :- ResultOutput(res);
        Success(node.(gasCost := Some(res.gasUsed), returndata := Some(output)))
    else if root.callType == SELFDESTRUCT then
      var address :- ActionAddress(root.action);
      Success(node.(address := Some(address)))
    else
      Success(node)
  }

  /**
   * The projection table. CREATE: `value`, `gas_limit` and `calldata` (the init code) always,
   * `gas_cost` and `address` from the result when there is one. The call family: `address`
   * (the receiver), `value`, `gas_limit` and `calldata` (the input) always, `gas_cost` and
   * `returndata` from the result when there is one. SELFDESTRUCT: only `address`. Any other
   * kind: only the base fields. Each fails exactly when the record's action or result is not
   * the variant its kind reads.
   */
  lemma ProjectTable(root: ParityTrace)
    ensures root.callType == CREATE ==>
      && (Project(root).Success? <==> root.action.CreateAction? && (root.result.Some? ==> root.result.value.CreateResult?))
      && (Project(root).Success? ==>
            && Project(root).value.value == Some(root.action.value)
            && Project(root).value.gasLimit == Some(root.action.gas)
            && Project(root).value.calldata == Some(root.action.init)
            && Project(root).value.gasCost == UsedGas(root.result)
            && Project(root).value.address == (if root.result.Some? then Some(root.result.value.address) else None)
            && Project(root).value.returndata == None)
    ensures IsCallFamily(root.callType) ==>
      && (Project(root).Success? <==> root.action.CallAction? && (root.result.Some? ==> root.result.value.CallResult?))
      && (Project(root).Success? ==>
            && Project(root).value.address == root.action.receiver
            && Project(root).value.value == Some(root.action.value)
            && Project(root).value.gasLimit == Some(root.action.gas)
            && Project(root).value.calldata == root.action.input
            && Project(root).value.gasCost == UsedGas(root.result)
            && Project(root).value.returndata == (if root.result.Some? then Some(root.result.value.output) else None))
    ensures root.callType == SELFDESTRUCT ==>
      && (Project(root).Success? <==> root.action.SelfDestructAction?)
      && (Project(root).Success? ==> Project(root).value == BaseNode(root.callType, root.error.Some?).(address := Some(root.action.address)))
    ensures root.callType !in {CREATE, SELFDESTRUCT} && !IsCallFamily(root.callType) ==>
      Project(root) == Success(BaseNode(root.callType, root.error.Some?))
  {
  }

  // ----- assembly -----

  /** Gather the children's results in order; the first failure is the one raised. */
  function Collect(rs: seq<Result<CallTreeNode>>): (r: Result<seq<CallTreeNode>>)
    ensures r.Success? <==> forall i :: 0 <= i < |rs| ==> rs[i].Success?
    ensures r.Success? ==> |r.value| == |rs| && forall i :: 0 <= i < |rs| ==> rs[i] == Success(r.value[i])
    ensures r.Failure? ==> exists i :: 0 <= i < |rs| && rs[i] == Failure(r.error) && forall j :: 0 <= j < i ==> rs[j].Success?
  {
    if rs == [] then Success([])
    else
      var head :- rs[0];
      var tail :- Collect(rs[1..]);
      Success([head] + tail)
  }

  /** `get_calltree_from_parity_trace` with an explicit root: the derived fields, one subtree per
      child in list order (each built with no overrides), then the overrides. */
  function Assemble(traces: seq<ParityTrace>, root: ParityTrace, ov: Overrides): (r: Result<CallTreeNode>)
    ensures Project(root).Failure? ==> r == Failure(Project(root).error)
    ensures r.Success? ==> && r.value.failed == GetOr(ov.failed, root.error.Some?)
                           && r.value.callType == GetOr(ov.callType, root.callType)
                           && (ov.calls.None? ==> |r.value.calls| == |Children(traces, root.traceAddress)|)
    decreases MaxAddrLen(traces) - |root.traceAddress|, 1
  {
    var node :- Project(root);
    var calls :- Collect(ChildTrees(traces, root));
    Success(ApplyOverrides(node.(calls := calls), ov))
  }

  /** `get_calltree_from_parity_trace`: the root defaults to the first record. */
  function GetCalltreeFromParityTrace(traces: seq<ParityTrace>, root: Option<ParityTrace>, ov: Overrides)
    : (r: Result<CallTreeNode>)
    ensures r == Failure(EmptyTraceList) <==> root.None? && traces == []
    ensures r.Failure? && r.error != EmptyTraceList ==> r.error.MissingAttribute?
    ensures root.Some? ==> r == Assemble(traces, root.value, ov)
    ensures root.None? && traces != [] ==> r == Assemble(traces, traces[0], ov)
  {
    match root
    case Some(t) => AssembleErrors(traces, t, ov); Assemble(traces, t, ov)
    case None =>
      if traces == [] then Failure(EmptyTraceList)
      else AssembleErrors(traces, traces[0], ov); Assemble(traces, traces[0], ov)
  }

  // ----- what the assembled tree looks like -----

  /** The subtrees of a record's children, in list order, each assembled with no overrides. */
  function ChildTrees(traces: seq<ParityTrace>, root: ParityTrace): (rs: seq<Result<CallTreeNode>>)
    ensures |rs| == |Children(traces, root.traceAddress)|
    decreases MaxAddrLen(traces) - |root.traceAddress|, 0
  {
    var subs := Children(traces, root.traceAddress);
    seq(|subs|, i requires 0 <= i < |subs| => assert subs[i] in subs; Assemble(traces, subs[i], NoOverrides))
  }

  lemma ChildTreesAt(traces: seq<ParityTrace>, root: ParityTrace, i: int)
    requires 0 <= i < |Children(traces, root.traceAddress)|
    ensures ChildTrees(traces, root)[i] == Assemble(traces, Children(traces, root.traceAddress)[i], NoOverrides)
  {
  }

  /** One step of `Assemble` once the root has been projected: the children decide the outcome. */
  lemma AssembleStep(traces: seq<ParityTrace>, root: ParityTrace, ov: Overrides)
    requires Project(root).Success?
    ensures var c := Collect(ChildTrees(traces, root));
      Assemble(traces, root, ov) ==
        if c.Success? then Success(ApplyOverrides(Project(root).value.(calls := c.value), ov)) else Failure(c.error)
  {
  }

  /**
   * The root's own failure comes first; otherwise the assembly succeeds exactly when every
   * child subtree does, and fails with the first failing child's error.
   */
  lemma AssembleOutcome(traces: seq<ParityTrace>, root: ParityTrace, ov: Overrides)
    ensures var r := Assemble(traces, root, ov);
            var kids := ChildTrees(traces, root);
      && (Project(root).Failure? ==> r == Failure(Project(root).error))
      && (r.Success? <==> Project(root).Success? && forall i :: 0 <= i < |kids| ==> kids[i].Success?)
      && (r.Failure? && Project(root).Success? ==>
            exists i :: 0 <= i < |kids| && kids[i] == Failure(r.error) && forall j :: 0 <= j < i ==> kids[j].Success?)
  {
    if Project(root).Success? {
      AssembleStep(traces, root, ov);
    }
  }

  /**
   * On success the node holds the projected fields with the overrides on top and, unless
   * `calls` is overridden, one subtree per child record, in list order.
   */
  lemma AssembleNode(traces: seq<ParityTrace>, root: ParityTrace, ov: Overrides)
    requires Assemble(traces, root, ov).Success?
    ensures var n := Assemble(traces, root, ov).value;
            var subs := Children(traces, root.traceAddress);
      && Project(root).Success?
      && n == ApplyOverrides(Project(root).value, ov).(calls := n.calls)
      && (ov.calls.Some? ==> n.calls == ov.calls.value)
      && (ov.calls.None? ==>
            && |n.calls| == |subs|
            && forall i :: 0 <= i < |subs| ==> Assemble(traces, subs[i], NoOverrides) == Success(n.calls[i]))
  {
    var subs := Children(traces, root.traceAddress);
    var rs := ChildTrees(traces, root);
    assert forall i :: 0 <= i < |subs| ==> rs[i] == Assemble(traces, subs[i], NoOverrides);
    assert Assemble(traces, root, ov) == (var node :- Project(root); var calls :- Collect(rs);
                                          Success(ApplyOverrides(node.(calls := calls), ov)));
  }

  /** Every error raised while assembling comes from reading a field the record's variant lacks. */
  lemma {:induction false} AssembleErrors(traces: seq<ParityTrace>, root: ParityTrace, ov: Overrides)
    ensures Assemble(traces, root, ov).Failure? ==> Assemble(traces, root, ov).error.MissingAttribute?
    decreases MaxAddrLen(traces) - |root.traceAddress|
  {
    var r := Assemble(traces, root, ov);
    AssembleOutcome(traces, root, ov);
    if r.Failure? && Project(root).Success? {
      var subs := Children(traces, root.traceAddress);
      var i :| 0 <= i < |subs| && Assemble(traces, subs[i], NoOverrides) == Failure(r.error);
      assert subs[i] in subs;
      AssembleErrors(traces, subs[i], NoOverrides);
    }
  }

  /** Every path from the node down has at most `d` nodes. */
  ghost predicate HeightAtMost(n: CallTreeNode, d: nat)
    decreases n
  {
    d > 0 && forall i :: 0 <= i < |n.calls| ==> HeightAtMost(n.calls[i], d - 1)
  }

  /** The tree is no deeper than the longest trace address allows below the root's address. */
  lemma {:induction false} AssembleDepth(traces: seq<ParityTrace>, root: ParityTrace)
    requires Assemble(traces, root, NoOverrides).Success?
    ensures HeightAtMost(Assemble(traces, root, NoOverrides).value,
                         if |root.traceAddress| <= MaxAddrLen(traces) then MaxAddrLen(traces) - |root.traceAddress| + 1 else 1)
    decreases MaxAddrLen(traces) - |root.traceAddress|
  {
    var n := Assemble(traces, root, NoOverrides).value;
    var subs := Children(traces, root.traceAddress);
    var d := if |root.traceAddress| <= MaxAddrLen(traces) then MaxAddrLen(traces) - |root.traceAddress| + 1 else 1;
    AssembleNode(traces, root, NoOverrides);
    forall i | 0 <= i < |n.calls|
      ensures HeightAtMost(n.calls[i], d - 1)
    {
      var sub := subs[i];
      assert sub in subs;
      assert |sub.traceAddress| == |root.traceAddress| + 1 <= MaxAddrLen(traces);
      assert Assemble(traces, sub, NoOverrides) == Success(n.calls[i]);
      AssembleDepth(traces, sub);
    }
    assert d > 0;
  }
}
