/**
 * The vocabulary of the cloud machine-learning library that the gateway talks
 * to. Its calls are not modelled; their outcomes enter the model as values.
 */
module AzureMl {

  type byte = bv8

  /**
   * A run's status string, with the three the gateway tests for singled out.
   * `Other` stands for every other string: a status reading "Completed",
   * "Failed" or "Canceled" is always one of the first three, never `Other`.
   */
  datatype RunStatus = Completed | Failed | Canceled | Other(name: string)

  /** The status string a `RunStatus` stands for. */
  function StatusName(status: RunStatus): (name: string)
    ensures status.Other? ==> name == status.name
  {
    match status
    case Completed => "Completed"
    case Failed => "Failed"
    case Canceled => "Canceled"
    case Other(name) => name
  }

  /** `status` is written in its one proper form: `Other` never names one of the three singled out. */
  predicate WellFormed(status: RunStatus)
  {
    status.Other? ==> status.name != "Completed" && status.name != "Failed" && status.name != "Canceled"
  }

  /** Written in their proper form, two statuses are the same exactly when their strings are. */
  lemma StatusNameIdentifies(a: RunStatus, b: RunStatus)
    requires WellFormed(a) && WellFormed(b)
    ensures StatusName(a) == StatusName(b) <==> a == b
  {
    if StatusName(a) == StatusName(b) {
      match a
      case Completed => assert StatusName(b) == "Completed";
      case Failed => assert StatusName(b) == "Failed";
      case Canceled => assert StatusName(b) == "Canceled";
      case Other(name) =>
    }
  }

  /** The status of a run that has been queued but not started. */
  const NotStarted: RunStatus := Other("NotStarted")

  /** The exception classes the gateway catches by type. */
  datatype ExceptionKind = ServiceException | WebserviceException | OtherException

  /** A raised exception: its class and its `message`. */
  datatype Exception = Exception(kind: ExceptionKind, message: string)
}
