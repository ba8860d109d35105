/**
 * The exceptions the core throws or lets through, as one datatype: the ones the
 * services raise themselves (IllegalArgumentException, IllegalStateException,
 * ServiceException), the default of the transactional DAO methods
 * (UnsupportedOperationException), and what storage code may throw (SQLException
 * or an unchecked failure).
 */
module Exceptions {
  import opened Wrappers
  import opened JavaText

  /** A failure reported by storage code whose body is not part of this model. */
  datatype Fault =
    | SqlError(sqlState: JString, detail: JString)   // a java.sql.SQLException
    | RuntimeError(detail: JString)                  // any unchecked exception

  datatype Exception =
    | IllegalArgument(reason: string)
    | IllegalState(reason: string)
    | UnsupportedOperation(reason: string)
    | NullPointer
    | SqlException(sqlState: JString, detail: JString)
    | RuntimeFailure(detail: JString)
    | ServiceException(reason: string, cause: Exception)
  {
    /** `Throwable.getMessage()`. */
    function GetMessage(): JString {
      match this
      case IllegalArgument(m) => Some(m)
      case IllegalState(m) => Some(m)
      case UnsupportedOperation(m) => Some(m)
      case NullPointer => None
      case SqlException(_, m) => m
      case RuntimeFailure(m) => m
      case ServiceException(m, _) => Some(m)
    }
  }

  /** The exception a storage fault surfaces as. */
  function Raised(f: Fault): (e: Exception)
    ensures e.SqlException? <==> f.SqlError?
    ensures e.GetMessage() == f.detail
  {
    match f
    case SqlError(state, m) => SqlException(state, m)
    case RuntimeError(m) => RuntimeFailure(m)
  }
}
