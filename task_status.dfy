/** The task status enumeration: three distinct upper-case names. */
module TaskStatuses {

  datatype TaskStatus = Open | InProgress | Done
  {
    /** The string value of the enum member. */
    function Name(): string
    {
      match this
      case Open => "OPEN"
      case InProgress => "IN_PROGRESS"
      case Done => "DONE"
    }
  }
}
