/**
 * The closed enumeration of operation kinds that a trace record carries.
 * Each member's value is its upper-case name.
 */
module Enums {
  import opened Common

  datatype CallType =
    | INTERNAL
    | CREATE
    | CREATE2
    | CALL
    | DELEGATECALL
    | STATICCALL
    | CALLCODE
    | SELFDESTRUCT
    | EVENT

  /** The enumeration value of a kind. */
  function TagOf(k: CallType): string
  {
    match k
    case INTERNAL => "INTERNAL"
    case CREATE => "CREATE"
    case CREATE2 => "CREATE2"
    case CALL => "CALL"
    case DELEGATECALL => "DELEGATECALL"
    case STATICCALL => "STATICCALL"
    case CALLCODE => "CALLCODE"
    case SELFDESTRUCT => "SELFDESTRUCT"
    case EVENT => "EVENT"
  }

  /** `CallType(u)`: look a kind up by its value; `None` for a value outside the enumeration. */
  function FromTag(u: string): (r: Option<CallType>)
    ensures forall k :: r == Some(k) <==> TagOf(k) == u
  {
    if u == "INTERNAL" then Some(INTERNAL)
    else if u == "CREATE" then Some(CREATE)
    else if u == "CREATE2" then Some(CREATE2)
    else if u == "CALL" then Some(CALL)
    else if u == "DELEGATECALL" then Some(DELEGATECALL)
    else if u == "STATICCALL" then Some(STATICCALL)
    else if u == "CALLCODE" then Some(CALLCODE)
    else if u == "SELFDESTRUCT" then Some(SELFDESTRUCT)
    else if u == "EVENT" then Some(EVENT)
    else None
  }

  /** The kinds whose action is a call action. */
  predicate IsCallFamily(k: CallType)
  {
    k == CALL || k == DELEGATECALL || k == STATICCALL || k == CALLCODE
  }
}
