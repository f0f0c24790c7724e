/** The shared continue-flag (std::atomic_bool m_continue) as the scanning
    thread sees it. Another thread may clear it at any time; the scanning
    thread only observes it when it polls, so the flag is modelled by the
    index of the first poll that reads false. Once false it stays false, as
    the flag is only ever cleared. */
module Cancel {
  import opened Wrappers

  class CancelFlag {
    /** Polls with an index below `stopAt` read true ("continue"). */
    const stopAt: nat
    /** Polls made so far. */
    var polls: nat

    constructor (stopAt: nat)
      ensures this.stopAt == stopAt && polls == 0
    {
      this.stopAt, polls := stopAt, 0;
    }

    /** Reads `*m_continue`. */
    method Poll() returns (go: bool)
      modifies this
      ensures go <==> old(polls) < stopAt
      ensures polls == old(polls) + 1
    {
      go := polls < stopAt;
      polls := polls + 1;
    }
  }

  /** The flag's schedule, or None when no flag was supplied
      (m_continue == nullptr). */
  function StopOf(flag: CancelFlag?): Option<nat> {
    if flag == null then None else Some(flag.stopAt)
  }

  /** Polls made so far on the flag, or 0 when there is none. */
  function PollsOf(flag: CancelFlag?): nat
    reads flag
  {
    if flag == null then 0 else flag.polls
  }
}
