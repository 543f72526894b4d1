/** The status of a step and the table of legal status changes. */
module Transition {

  datatype Status = Pending | Queued | Running | Done | Failed | Canceled

  /** True iff the table lists a move from `from` to `to`. */
  predicate CanTransition(from: Status, to: Status) {
    match from
    case Pending => to.Queued? || to.Canceled?
    case Queued => to.Running? || to.Canceled?
    case Running => to.Done? || to.Failed? || to.Queued? || to.Canceled?
    case Done => to.Queued?
    case Failed => to.Queued?
    case Canceled => to.Queued?
  }

  /** No automatic processing happens to a step in a terminal status. */
  predicate Terminal(s: Status) {
    s.Done? || s.Failed? || s.Canceled?
  }

  /** A live step occupies a slot: some job or worker will move it on. */
  predicate Live(s: Status) {
    s.Queued? || s.Running?
  }
}
