# evm-trace: Parity trace assembly and gas reports, modelled in Dafny

This project models two parts of the `evm_trace` Python library:

- **Parity trace records and the call tree built from them** (`evm_trace/parity.py`):
  - the numeric field validators. `gas` and `value` of call and create actions accept hex text only. `balance` and `gasUsed` accept hex text or a number, which passes through unchanged.
  - the kind normaliser `convert_call_type`. A call action's own `callType` replaces the outer `type`. The tag is upper-cased, `SUICIDE` is read as `SELFDESTRUCT`, and the tag must name a member of the `CallType` enumeration.
  - `get_calltree_from_parity_trace`, which:
    - takes the root (by default the first record);
    - finds its children by positional-prefix matching on `traceAddress`;
    - projects the fields that depend on the kind;
    - assembles one subtree per child, recursively and without overrides;
    - finally merges the caller's keyword overrides on top.
- **Gas reports** (`evm_trace/gas.py`):
  - `get_gas_report`, which records each node's gas cost under (address, first four elements of calldata) and merges the children's reports into it;
  - `merge_reports`, which takes the union of keys at both levels and concatenates the lists in argument order.

Modules:

| file | module | contents |
|---|---|---|
| `common.dfy` | `Common` | `Option`, the error kinds, `Result` usable with `:-` |
| `enums.dfy` | `Enums` | the `CallType` enumeration (`evm_trace/enums.py` is not part of this model; see below) |
| `call_tree.dfy` | `CallTree` | the output node as a plain record, and the keyword overrides |
| `parity_numeric.dfy` | `ParityNumeric` | `int(v, 16)` on text, the two field policies, and the hex rendering that inverts them |
| `parity_decode.dfy` | `ParityDecode` | decoded and raw records, kind normalisation, record construction and its inverse |
| `parity_tree.dfy` | `ParityTree` | the child filter, the projection table, recursive assembly, overrides |
| `parity_example.dfy` | `ParityExample` | a two-record transaction, decoded and assembled |
| `gas_merge.dfy` | `GasMerge` | the merge as a function `Merged` specifying the imperative `MergeReports` (nested loops over maps) |
| `gas_report.dfy` | `GasReport` | `GetGasReport`, proved against a reference given by the pre-order of the tree |
| `gas_example.dfy` | `GasExample` | a three-node tree and its report |

Python raises an exception where the model returns `Failure`. The error kinds are:

- `BadHex`: text `int(v, 16)` rejects.
- `NotText`: a number given to a hex-only field, where `int(v, 16)` raises a type error.
- `UnknownKind`: a tag outside the enumeration.
- `EmptyTraceList`: `traces.root[0]` on an empty list.
- `MissingAttribute`: an attribute read on an action or result of the wrong variant. The source casts without checking, so an `AttributeError` is raised the first time a missing attribute is read, in the order the keyword arguments are evaluated.

Two behaviours of the code are easy to misread:

- `failed` is true when the root record's `error` **is** present (`evm_trace/parity.py:135`).
- `int(v, 16)` reads a bare digit string in base 16 for both policies, so `"26"` is 38 and a hex-only field accepts it. A number given to a hex-only field is rejected.

## Model

| member | source | states |
|---|---|---|
| ParityNumeric.ParseHex | evm_trace/parity.py:22-24 | `int(v, 16)` on text succeeds exactly when, after an optional `0x`/`0X` marker, at least one character remains and all are hex digits; the value is those digits read in base 16, most significant first; any other text fails with `BadHex` of that text |
| ParityNumeric.HexOnly | evm_trace/parity.py:36-38 | the `gas`/`value` policy: text is parsed as by `ParseHex`, and a number is rejected with `NotText` |
| ParityNumeric.HexOrNative | evm_trace/parity.py:63-65 | the `balance`/`gasUsed` policy: a number passes through unchanged; text succeeds exactly when `ParseHex` does, with the same value, and otherwise fails with `BadHex` |
| ParityNumeric.ParseHexRoundTrip | evm_trace/parity.py:22-24 | parsing `"0x"` followed by the hex rendering of any natural number gives that number back |
| ParityNumeric.ParseHexExamples | evm_trace/parity.py:36-38 | `"0x1a"`, `"0X1A"` and `"1a"` give 26, the bare string `"26"` gives 38, and `"0x"`, `""` and `"0xg1"` are rejected with `BadHex` |
| ParityNumeric.NumericPolicies | evm_trace/parity.py:45-47 | both policies read hex text alike; a number passes through the hex-or-native policy unchanged and is rejected by the hex-only policy |
| ParityDecode.HexOrNativeRoundTrip | evm_trace/parity.py:63-65 | every integer `gasUsed`/`balance`, rendered as hex text when non-negative or kept as a number otherwise, decodes back to itself |
| ParityDecode.DecodeAction | evm_trace/parity.py:9-47 | a call or create action decodes exactly when `gas` and `value` pass the hex-only policy, a selfdestruct action exactly when `balance` passes the hex-or-native policy; the variant is kept, the numeric fields are the validated values and every other field is carried over; a failure is `BadHex` or `NotText` |
| ParityDecode.DecodeResult | evm_trace/parity.py:50-82 | a result decodes exactly when `gasUsed` passes the hex-or-native policy, to that value; the variant is kept and `output`, `address` and `code` are carried over; a failure is `BadHex` |
| ParityDecode.DecodeTrace | evm_trace/parity.py:89-108 | a record decodes exactly when its action, its kind and its result all decode; failures are reported in field order, action first, then kind, then result; on success the record's action, kind and result are the decoded action, `ConvertCallType` of the outer `type` and the action, and the decoded result, and `error`, `blockHash`, `subtraces`, `traceAddress` and `transactionHash` are carried over; a failure is `BadHex`, `NotText` or `UnknownKind` |
| ParityDecode.DecodeActionRoundTrip | evm_trace/parity.py:9-47 | every call, create and selfdestruct action survives rendering and validation unchanged |
| ParityDecode.DecodeResultRoundTrip | evm_trace/parity.py:50-82 | every call and create result survives rendering and validation unchanged |
| ParityDecode.NormalizeKind | evm_trace/parity.py:104-108 | succeeds with `k` exactly when the upper-cased tag is `k`'s enumeration value, or is `SUICIDE` and `k` is SELFDESTRUCT; any other tag fails with `UnknownKind` |
| Enums.FromTag | evm_trace/parity.py:108 | `CallType(value)`: yields `k` exactly when `value` is `k`'s enumeration value |
| ParityDecode.ConvertCallType | evm_trace/parity.py:99-108 | the kind is looked up from the action's own `callType` for a call action, from the outer `type` otherwise, with the same case-folding and alias as `NormalizeKind`; a failure is `UnknownKind` |
| ParityDecode.ConvertCallTypeSource | evm_trace/parity.py:101-102 | for a call action the outer `type` has no influence; for any other action only the outer `type` matters |
| ParityDecode.NormalizeKindIgnoresCase | evm_trace/parity.py:104 | a tag, its upper-case and its lower-case spelling normalise to the same outcome |
| ParityDecode.NormalizeKindOfTag | evm_trace/parity.py:108 | every kind is recognised from its enumeration value, in upper and in lower case |
| ParityDecode.NormalizeKindExamples | evm_trace/parity.py:104-108 | `suicide`, `Suicide` and `SUICIDE` give SELFDESTRUCT, `call` gives CALL, and `reward` fails with `UnknownKind("REWARD")` |
| ParityDecode.DecodeTraceRoundTrip | evm_trace/parity.py:89-108 | a record whose call action (if any) reports the record's own kind decodes from its rendering to itself |
| ParityDecode.DecodeTraceKind | evm_trace/parity.py:99-108 | every decoded record's kind is the one named by the right source tag, and its call action (if any) agrees with it |
| ParityTree.Children | evm_trace/parity.py:184-190 | a record is a child exactly when it is in the list and its address is the parent's address plus one element; there are no more children than records |
| ParityTree.ChildrenInListOrder | evm_trace/parity.py:185-190 | the children are the records at an increasing sequence of list positions, which holds exactly the positions of the matching records; so sibling order is list order |
| ParityTree.Project | evm_trace/parity.py:135-139 | a projected node has the record's kind, `failed` exactly when `error` is present, and no calls yet; a projection failure is always `MissingAttribute` |
| ParityTree.ProjectTable | evm_trace/parity.py:141-182 | per kind: <br>• CREATE sets `value`, `gas_limit` and `calldata` (the init code), plus `gas_cost` and `address` when a result is present; <br>• CALL, DELEGATECALL, STATICCALL and CALLCODE set `address` (the receiver), `value`, `gas_limit` and `calldata` (the input), plus `gas_cost` and `returndata` when a result is present; <br>• SELFDESTRUCT sets only `address`; <br>• other kinds set only the base fields. <br>The projection succeeds exactly when the action and result are the variants the kind reads. |
| ParityTree.ChildTrees | evm_trace/parity.py:191 | there is one subtree per child record |
| ParityTree.ChildTreesAt | evm_trace/parity.py:191 | the subtree at position `i` is the `i`-th child record assembled with no overrides |
| ParityTree.Collect | evm_trace/parity.py:191 | the children's subtrees are gathered in order; it succeeds iff every child succeeds, and otherwise fails with the first failing child's error |
| ParityTree.Assemble | evm_trace/parity.py:134-192 | a projection failure of the root is the result; on success `failed` is "error present" and the kind is the record's kind unless overridden, in which case the override wins, and unless `calls` is overridden there are as many subtrees as child records |
| ParityTree.AssembleOutcome | evm_trace/parity.py:141-191 | a projection failure of the root comes first; otherwise assembly succeeds iff every child subtree does, and fails with the first failing child's error |
| ParityTree.AssembleNode | evm_trace/parity.py:191-192 | on success the node is the projection with the overrides on top. Unless `calls` is overridden, it has one subtree per child record, in list order, each assembled with no overrides. |
| ParityTree.AssembleErrors | evm_trace/parity.py:141-191 | every failure anywhere in the recursion is a read of an attribute the record's variant lacks |
| ParityTree.GetCalltreeFromParityTrace | evm_trace/parity.py:114-134 | a given root is assembled as it is; without one the first record is the root, and an empty list fails with `EmptyTraceList` (exactly then); every other failure is `MissingAttribute` |
| ParityTree.AssembleDepth | evm_trace/parity.py:185-191 | the assembled tree is no taller than the longest trace address allows below the root's address |
| CallTree.ApplyOverrides | evm_trace/parity.py:192 | no overrides leave the node unchanged; every field (`call_type`, `failed`, `address`, `value`, `gas_limit`, `gas_cost`, `calldata`, `returndata`, `calls`) is the override when one is given and the node's own field otherwise |
| CallTree.OverrideLaws | evm_trace/parity.py:192 | no overrides change nothing; applying overrides twice equals applying them once; every overridden field is the override whatever was derived |
| ParityExample.ParseRootGas | evm_trace/parity.py:22-24 | `"0x5208"` parses to 21000 |
| ParityExample.ParseChildGas | evm_trace/parity.py:22-24 | `"0x100"` parses to 256 |
| ParityExample.ExampleDecodesRoot | evm_trace/parity.py:22-108 | the raw root record decodes with gas 21000, value 0, gas used 1 and kind CALL from `callType` |
| ParityExample.ExampleDecodesChild | evm_trace/parity.py:22-108 | the raw nested record decodes with gas 256, its error kept, no result and kind CALL from `callType` |
| ParityExample.ExampleTree | evm_trace/parity.py:114-193 | the example assembles to a root at `0xB` with gas cost 1 and gas limit 21000, whose single child is at `0xC`, failed, with no gas cost and no calls |
| GasMerge.MergeInner | evm_trace/gas.py:48-52 | merging two method maps gives a map whose methods are exactly those of either |
| GasMerge.MergeTwo | evm_trace/gas.py:43-52 | merging two reports keeps every contract of both and adds none; the lists under each pair are given by `LookupMergeTwo` |
| GasMerge.Merged | evm_trace/gas.py:28-54 | no reports merge to the empty report, one report merges to itself, and every report's contracts are in the merge; lists are given by `MergedLookup` |
| GasMerge.LookupMergeTwo | evm_trace/gas.py:43-52 | merging two reports gives, under every (contract, method) pair, the first report's list followed by the second's |
| GasMerge.MergedLookup | evm_trace/gas.py:42-52 | the merge of any number of reports holds, under every pair, the concatenation of every report's list for it in argument order |
| GasMerge.MergedLength | evm_trace/gas.py:48-52 | the merged list under a pair is as long as the lists under it in all the reports together |
| GasMerge.MergedOuterKeys | evm_trace/gas.py:43-46 | a contract is in the merge exactly when some report has it |
| GasMerge.MergedInnerKeys | evm_trace/gas.py:48-52 | under a merged contract, a method is present exactly when some report has it under that contract |
| GasMerge.ExtendSelectors | evm_trace/gas.py:48-52 | the inner loop leaves every other contract alone and replaces this contract's map by its merge with the new inner map |
| GasMerge.MergeInto | evm_trace/gas.py:43-52 | one pass of the outer loop merges a report into the accumulated one |
| GasMerge.MergeReports | evm_trace/gas.py:28-54 | the method's result is the merge of its arguments, covering the zero-report and one-report returns and the copy-then-extend loop |
| GasReport.Selector | evm_trace/gas.py:23 | the method key is a prefix of the calldata: the whole calldata when it has fewer than four elements, its first four otherwise (absent calldata counts as empty) |
| GasReport.OwnCosts | evm_trace/gas.py:23 | a node records `[gas_cost]` exactly when its cost is set and non-zero, and nothing otherwise |
| GasReport.Own | evm_trace/gas.py:22-24 | a node's own report has the node's address as its only contract, and holds the node's own costs under its selector and nothing under any other pair |
| GasReport.GetGasReport | evm_trace/gas.py:12-25 | the report has the node's and every direct subcall's address, and is the node's own report when there are no subcalls; its full contents are given by `GasReportLookup` and `GasReportDescribes` |
| GasReport.GasReportDescribes | evm_trace/gas.py:22-25 | the report's contracts, pairs and lists are exactly those the tree's nodes in pre-order call for |
| GasReport.GasReportLookup | evm_trace/gas.py:22-25 | under every (address, selector) the report holds the own costs of exactly the nodes with that key, a node before its descendants and siblings in `calls` order |
| GasReport.GasReportKeys | evm_trace/gas.py:22-25 | the contracts are exactly the nodes' addresses and the pairs exactly the nodes' keys |
| GasReport.EveryNodeRecorded | evm_trace/gas.py:23-25 | every node of the tree has an entry under its address and selector, even when it records no cost |
| GasReport.GasReportEntryCount | evm_trace/gas.py:22-25 | the total number of gas costs in the report equals the number of nodes with a set, non-zero cost |
| GasReport.PreorderRoot | evm_trace/gas.py:23 | the reference order starts with the node itself |
| GasReport.PreorderSubtree | evm_trace/gas.py:25 | the reference order contains every node of every child's subtree |
| GasExample.ExampleReport | evm_trace/gas.py:12-25 | the example tree's report lists the parent's cost before the re-entering child's under the shared key, and keeps the costless node's key with an empty list |
| GasExample.ExamplePreorder | evm_trace/gas.py:25 | the example tree in reference order is the call, then its two subcalls in order |
| GasExample.ExampleCount | evm_trace/gas.py:22-25 | two of the example's three nodes carry a cost, matching the two entries in its report |

## Left out

- The `pydantic` machinery (models, field aliases, `RootModel`, `model_validate`) is not modelled. Records are Dafny datatypes; a raw record carries its fields with their JSON names and types.
- Pydantic's union selection for the action and result is not modelled. A raw record already carries its variant. Pydantic also collects every validation error, whereas the model reports the first in field order.
- The full grammar of Python's `int(v, 16)` is not modelled: signs, surrounding whitespace and `_` separators. Only an optional `0x`/`0X` marker followed by hex digits is accepted. `int(v)` on non-integer values such as floats and booleans is left out of the hex-or-native policy. Native numbers are integers.
- Upper-casing is ASCII only. Python's `str.upper` is Unicode-aware.
- `Enums.CallType` has these members: INTERNAL, CREATE, CREATE2, CALL, DELEGATECALL, STATICCALL, CALLCODE, SELFDESTRUCT and EVENT, because `evm_trace/enums.py` is not part of this model. The kinds outside the CREATE, call-family and SELFDESTRUCT branches (CREATE2 included) get only the base fields, as the code's `if`/`elif` chain gives them.
- `CallTreeNode`'s own validation, defaults and type conversions are not modelled, because `evm_trace/base.py` is not part of this model. The node is a plain record whose optional fields are `None` when no code sets them.
- `CallTree.CallTreeNode` keeps `calldata` as the text it was given. The conversion to bytes that the node type performs is not modelled. `GasReport.Selector` therefore takes the first four elements of that text rather than four decoded bytes. It also reads an unset calldata as empty; the node type's default for it is defined in `evm_trace/base.py`, which is not part of this model.
- Overrides can add only fields the node has. Python's `**root_kwargs` accepts any key, which `model_validate` would then judge.
- The validity of hex strings in addresses, hashes, init code, calldata and return data is not modelled. They are opaque strings.
- `subtraces`, `blockHash` and `transactionHash` are carried as plain fields. No logic reads them.
- RPC transport and JSON decoding are not modelled.
- GasMerge.MergeReports uses value semantics. The deep copy of the first report (`evm_trace/gas.py:41`) keeps it unchanged, and that holds trivially here. Inner maps and lists of later reports are stored by reference and then extended in place (`evm_trace/gas.py:45, 52`). That aliasing is not modelled, so the model claims nothing about later arguments staying unchanged. Nor does it capture the results that differ when the same report object is passed more than once as a later argument. For example, `merge_reports({}, b, b, b)` with `b = {c: {m: [1]}}` gives `[1, 1, 1, 1]` under `(c, m)` where the model gives `[1, 1, 1]`: the second `b` stores `b`'s own list, and each further `b` then extends that list with itself. Repeating the first report is harmless, because it is deep-copied. `get_gas_report` never passes shared objects, so it is unaffected.
- Dictionary insertion order, which Python preserves, is not modelled. Reports are maps.
