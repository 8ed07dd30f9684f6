/**
 * The decoded Parity trace records and their construction from raw payloads:
 * per-field numeric validation and the one-time normalisation of the
 * operation kind.
 */
module ParityDecode {
  import opened Common
  import opened Enums
  import opened ParityNumeric

  // ----- decoded records -----

  /** The action of a record: one of the three payload shapes. */
  datatype Action =
    | CallAction(gas: nat, input: Option<string>, receiver: Option<string>, sender: string,
                 value: nat, callType: string)
    | CreateAction(gas: nat, init: string, value: nat)
    | SelfDestructAction(address: string, balance: int)

  /** The result of a record: one of the two result shapes (both carry `gasUsed`). */
  datatype TraceResult =
    | CallResult(gasUsed: int, output: string)
    | CreateResult(gasUsed: int, address: string, code: string)

  /** One decoded record; `callType` is already normalised. */
  datatype ParityTrace = ParityTrace(
    error: Option<string>,
    action: Action,
    blockHash: string,
    callType: CallType,
    result: Option<TraceResult>,
    subtraces: int,
    traceAddress: seq<int>,
    transactionHash: string)

  // ----- raw records (the action and result variant is already selected) -----

  datatype RawAction =
    | RawCallAction(gas: RawNum, input: Option<string>, receiver: Option<string>, sender: string,
                    value: RawNum, callType: string)
    | RawCreateAction(gas: RawNum, init: string, value: RawNum)
    | RawSelfDestructAction(address: string, balance: RawNum)

  datatype RawResult =
    | RawCallResult(gasUsed: RawNum, output: string)
    | RawCreateResult(gasUsed: RawNum, address: string, code: string)

  /** A record as received; `kind` is the outer `type` field. */
  datatype RawTrace = RawTrace(
    error: Option<string>,
    action: RawAction,
    blockHash: string,
    kind: string,
    result: Option<RawResult>,
    subtraces: int,
    traceAddress: seq<int>,
    transactionHash: string)

  // ----- kind normalisation -----

  /** ASCII upper-casing of one character. */
  function UpperChar(c: char): char
  {
    if 'a' <= c <= 'z' then (c as int - 32) as char else c
  }

  function LowerChar(c: char): char
  {
    if 'A' <= c <= 'Z' then (c as int + 32) as char else c
  }

  function ToUpper(s: string): string
  {
    seq(|s|, i requires 0 <= i < |s| => UpperChar(s[i]))
  }

  function ToLower(s: string): string
  {
    seq(|s|, i requires 0 <= i < |s| => LowerChar(s[i]))
  }

  /** `u` (already upper-cased) names kind `k`, directly or through the SUICIDE alias. */
  predicate Names(u: string, k: CallType)
  {
    u == TagOf(k) || (u == "SUICIDE" && k == SELFDESTRUCT)
  }

  /** Upper-case the tag, resolve SUICIDE to SELFDESTRUCT and look it up in the enumeration. */
  function NormalizeKind(tag: string): (r: Result<CallType>)
    ensures forall k :: r == Success(k) <==> Names(ToUpper(tag), k)
    ensures r.Failure? ==> r.error.UnknownKind?
  {
    var upper := ToUpper(tag);
    var value := if upper == "SUICIDE" then "SELFDESTRUCT" else upper;
    match FromTag(value)
    case Some(k) => Success(k)
    case None => Failure(UnknownKind(value))
  }

  /** The tag a record's kind is read from: a call action's own `callType` beats the outer `type`. */
  function KindSource(outer: string, action: Action): string
  {
    if action.CallAction? then action.callType else outer
  }

  /** `ParityTrace.convert_call_type`. */
  function ConvertCallType(outer: string, action: Action): (r: Result<CallType>)
    ensures forall k :: r == Success(k) <==> Names(ToUpper(KindSource(outer, action)), k)
    ensures r.Failure? ==> r.error.UnknownKind?
  {
    NormalizeKind(KindSource(outer, action))
  }

  lemma {:induction false} UpperOfLower(s: string)
    ensures ToUpper(ToLower(s)) == ToUpper(s)
    ensures ToUpper(ToUpper(s)) == ToUpper(s)
  {
    assert forall i :: 0 <= i < |s| ==> ToUpper(ToLower(s))[i] == ToUpper(s)[i];
    assert forall i :: 0 <= i < |s| ==> ToUpper(ToUpper(s))[i] == ToUpper(s)[i];
  }

  /** Kind matching ignores case: a tag, its upper-case and its lower-case spelling agree. */
  lemma NormalizeKindIgnoresCase(tag: string)
    ensures NormalizeKind(ToUpper(tag)) == NormalizeKind(tag)
    ensures NormalizeKind(ToLower(tag)) == NormalizeKind(tag)
  {
    UpperOfLower(tag);
  }

  /** Every kind is recognised from its enumeration value in either case. */
  lemma NormalizeKindOfTag(k: CallType)
    ensures NormalizeKind(TagOf(k)) == Success(k)
    ensures NormalizeKind(ToLower(TagOf(k))) == Success(k)
  {
    var t := TagOf(k);
    assert ToUpper(t) == t;
    NormalizeKindIgnoresCase(t);
  }

  /** "suicide" in any spelling is the SELFDESTRUCT kind; a tag outside the enumeration is an error. */
  lemma NormalizeKindExamples()
    ensures NormalizeKind("suicide") == Success(SELFDESTRUCT)
    ensures NormalizeKind("Suicide") == Success(SELFDESTRUCT)
    ensures NormalizeKind("SUICIDE") == Success(SELFDESTRUCT)
    ensures NormalizeKind("call") == Success(CALL)
    ensures NormalizeKind("reward") == Failure(UnknownKind("REWARD"))
  {
    assert ToUpper("suicide") == "SUICIDE";
    assert ToUpper("Suicide") == "SUICIDE";
    assert ToUpper("SUICIDE") == "SUICIDE";
    assert ToUpper("call") == "CALL";
    assert ToUpper("reward") == "REWARD";
  }

  /** For a call action the outer `type` is irrelevant; otherwise only the outer `type` matters. */
  lemma ConvertCallTypeSource(outer1: string, outer2: string, action: Action, other: Action)
    ensures action.CallAction? ==> ConvertCallType(outer1, action) == ConvertCallType(outer2, action)
    ensures action.CallAction? ==> ConvertCallType(outer1, action) == NormalizeKind(action.callType)
    ensures !action.CallAction? && !other.CallAction? ==>
              ConvertCallType(outer1, action) == ConvertCallType(outer1, other) == NormalizeKind(outer1)
  {
  }

  // ----- record construction -----

  /** Validate the numeric fields of an action (fields in declaration order). */
  function DecodeAction(raw: RawAction): (r: Result<Action>)
    ensures raw.RawSelfDestructAction? ==> (r.Success? <==> HexOrNative(raw.balance).Success?)
    ensures !raw.RawSelfDestructAction? ==> (r.Success? <==> HexOnly(raw.gas).Success? && HexOnly(raw.value).Success?)
    ensures r.Success? ==> && (r.value.CallAction? <==> raw.RawCallAction?)
                           && (r.value.CreateAction? <==> raw.RawCreateAction?)
    ensures r.Success? && raw.RawCallAction? ==>
      && r.value.gas == HexOnly(raw.gas).value && r.value.value == HexOnly(raw.value).value
      && r.value.input == raw.input && r.value.receiver == raw.receiver
      && r.value.sender == raw.sender && r.value.callType == raw.callType
    ensures r.Success? && raw.RawCreateAction? ==>
      r.value.gas == HexOnly(raw.gas).value && r.value.value == HexOnly(raw.value).value && r.value.init == raw.init
    ensures r.Success? && raw.RawSelfDestructAction? ==>
      r.value.balance == HexOrNative(raw.balance).value && r.value.address == raw.address
    ensures r.Failure? ==> r.error.BadHex? || r.error.NotText?
  {
    match raw
    case RawCallAction(gas, input, receiver, sender, value, callType) =>
      var g :- HexOnly(gas);
      var v :- HexOnly(value);
      Success(CallAction(g, input, receiver, sender, v, callType))
    case RawCreateAction(gas, init, value) =>
      var g :- HexOnly(gas);
      var v :- HexOnly(value);
      Success(CreateAction(g, init, v))
    case RawSelfDestructAction(address, balance) =>
      var b :- HexOrNative(balance);
      Success(SelfDestructAction(address, b))
  }

  function DecodeResult(raw: RawResult): (r: Result<TraceResult>)
    ensures r.Success? <==> HexOrNative(raw.gasUsed).Success?
    ensures r.Success? ==> && r.value.gasUsed == HexOrNative(raw.gasUsed).value
                           && (r.value.CallResult? <==> raw.RawCallResult?)
    ensures r.Success? && raw.RawCallResult? ==> r.value.output == raw.output
    ensures r.Success? && raw.RawCreateResult? ==> r.value.address == raw.address && r.value.code == raw.code
    ensures r.Failure? ==> r.error.BadHex?
  {
    match raw
    case RawCallResult(gasUsed, output) =>
      var g :- HexOrNative(gasUsed);
      Success(CallResult(g, output))
    case RawCreateResult(gasUsed, address, code) =>
      var g :- HexOrNative(gasUsed);
      Success(CreateResult(g, address, code))
  }

  function DecodeOptionalResult(raw: Option<RawResult>): Result<Option<TraceResult>>
  {
    match raw
    case None => Success(None)
    case Some(r) => var d :- DecodeResult(r); Success(Some(d))
  }

  /** Build a record: the action first, then the kind (which may read the action), then the result. */
  function DecodeTrace(raw: RawTrace): (r: Result<ParityTrace>)
    ensures r.Success? <==> && DecodeAction(raw.action).Success?
                            && ConvertCallType(raw.kind, DecodeAction(raw.action).value).Success?
                            && DecodeOptionalResult(raw.result).Success?
    ensures DecodeAction(raw.action).Failure? ==> r == Failure(DecodeAction(raw.action).error)
    ensures DecodeAction(raw.action).Success? && ConvertCallType(raw.kind, DecodeAction(raw.action).value).Failure? ==>
      r == Failure(ConvertCallType(raw.kind, DecodeAction(raw.action).value).error)
    ensures DecodeAction(raw.action).Success? && ConvertCallType(raw.kind, DecodeAction(raw.action).value).Success?
            && DecodeOptionalResult(raw.result).Failure? ==>
      r == Failure(DecodeOptionalResult(raw.result).error)
    ensures r.Success? ==> && DecodeAction(raw.action) == Success(r.value.action)
                           && ConvertCallType(raw.kind, r.value.action) == Success(r.value.callType)
                           && DecodeOptionalResult(raw.result) == Success(r.value.result)
    ensures r.Success? ==> && r.value.error == raw.error && r.value.blockHash == raw.blockHash
                           && r.value.subtraces == raw.subtraces && r.value.traceAddress == raw.traceAddress
                           && r.value.transactionHash == raw.transactionHash
    ensures r.Failure? ==> r.error.BadHex? || r.error.NotText? || r.error.UnknownKind?
  {
    var action :- DecodeAction(raw.action);
    var kind :- ConvertCallType(raw.kind, action);
    var result :- DecodeOptionalResult(raw.result);
    Success(ParityTrace(raw.error, action, raw.blockHash, kind, result, raw.subtraces,
                        raw.traceAddress, raw.transactionHash))
  }

  // ----- the rendering that inverts the decoder -----

  function EncodeHex(n: nat): RawNum
  {
    Text("0x" + ToHex(n))
  }

  /** Hex-or-native fields: non-negative numbers as hex text, the others as they are. */
  function EncodeHexOrNative(i: int): RawNum
  {
    if i >= 0 then EncodeHex(i) else Native(i)
  }

  function EncodeAction(a: Action): RawAction
  {
    match a
    case CallAction(gas, input, receiver, sender, value, callType) =>
      RawCallAction(EncodeHex(gas), input, receiver, sender, EncodeHex(value), callType)
    case CreateAction(gas, init, value) =>
      RawCreateAction(EncodeHex(gas), init, EncodeHex(value))
    case SelfDestructAction(address, balance) =>
      RawSelfDestructAction(address, EncodeHexOrNative(balance))
  }

  function EncodeResult(r: TraceResult): RawResult
  {
    match r
    case CallResult(gasUsed, output) => RawCallResult(EncodeHexOrNative(gasUsed), output)
    case CreateResult(gasUsed, address, code) => RawCreateResult(EncodeHexOrNative(gasUsed), address, code)
  }

  function EncodeTrace(t: ParityTrace): RawTrace
  {
    RawTrace(t.error, EncodeAction(t.action), t.blockHash, TagOf(t.callType),
             match t.result case None => None case Some(r) => Some(EncodeResult(r)),
             t.subtraces, t.traceAddress, t.transactionHash)
  }

  /** A record whose call action, if any, reports the record's own kind. */
  predicate WellKinded(t: ParityTrace)
  {
    t.action.CallAction? ==> NormalizeKind(t.action.callType) == Success(t.callType)
  }

  lemma HexOrNativeRoundTrip(i: int)
    ensures HexOrNative(EncodeHexOrNative(i)) == Success(i)
  {
    if i >= 0 {
      ParseHexRoundTrip(i);
    }
  }

  lemma DecodeActionRoundTrip(a: Action)
    ensures DecodeAction(EncodeAction(a)) == Success(a)
  {
    match a
    case CallAction(gas, _, _, _, value, _) =>
      ParseHexRoundTrip(gas);
      ParseHexRoundTrip(value);
    case CreateAction(gas, _, value) =>
      ParseHexRoundTrip(gas);
      ParseHexRoundTrip(value);
    case SelfDestructAction(_, balance) =>
      HexOrNativeRoundTrip(balance);
  }

  lemma DecodeResultRoundTrip(r: TraceResult)
    ensures DecodeResult(EncodeResult(r)) == Success(r)
  {
    HexOrNativeRoundTrip(r.gasUsed);
  }

  /** Decoding inverts encoding on every record whose kind is consistent with its action. */
  lemma DecodeTraceRoundTrip(t: ParityTrace)
    requires WellKinded(t)
    ensures DecodeTrace(EncodeTrace(t)) == Success(t)
  {
    DecodeActionRoundTrip(t.action);
    NormalizeKindOfTag(t.callType);
    if t.result.Some? {
      DecodeResultRoundTrip(t.result.value);
    }
  }

  /** Every record the decoder builds has its kind from the right source, and is well kinded. */
  lemma DecodeTraceKind(raw: RawTrace)
    requires DecodeTrace(raw).Success?
    ensures var t := DecodeTrace(raw).value;
      && Names(ToUpper(KindSource(raw.kind, t.action)), t.callType)
      && WellKinded(t)
      && t.traceAddress == raw.traceAddress && t.error == raw.error
  {
  }
}
