/**
 * log.go: logging helpers whose only effect on the process, apart from the
 * log line itself, goes through the exit-status coordinator.
 */
module Log {
  import opened ExitStatus

  /** The status every logged error asks for. */
  const ErrorStatus := 1

  /** LogErrorf: asks for status 1 and carries on; the hooks are untouched. */
  method LogErrorf(c: Coordinator)
    modifies c
    ensures c.status == Merge(old(c.status), ErrorStatus)
    ensures c.hooks == old(c.hooks) && c.inProgress == old(c.inProgress)
  {
    c.SetExitStatus(ErrorStatus);
  }

  /** LogFatalf: LogErrorf, then ExitWithStatus; it never returns to its caller. */
  method LogFatalf(c: Coordinator, behaviour: HookId -> seq<HookAction>) returns (outcome: ExitOutcome)
    modifies c
    ensures old(c.inProgress) ==> outcome == Blocked
    ensures !old(c.inProgress) ==>
      outcome == Exited(old(c.hooks), FatalCode(old(c.status), old(c.hooks), behaviour))
  {
    LogErrorf(c);
    outcome := c.ExitWithStatus(behaviour);
  }

  /** LogPrintFatalf: the same as LogFatalf, with one more copy of the message. */
  method LogPrintFatalf(c: Coordinator, behaviour: HookId -> seq<HookAction>) returns (outcome: ExitOutcome)
    modifies c
    ensures old(c.inProgress) ==> outcome == Blocked
    ensures !old(c.inProgress) ==>
      outcome == Exited(old(c.hooks), FatalCode(old(c.status), old(c.hooks), behaviour))
  {
    outcome := LogFatalf(c, behaviour);
  }

  /** The code a fatal log line exits with, from the status and hooks it found. */
  function FatalCode(status: int, hooks: seq<HookId>, behaviour: HookId -> seq<HookAction>): int {
    StatusAfter(Merge(status, ErrorStatus), Effects(hooks, behaviour))
  }

  /** A fatal log line always exits unsuccessfully, and never below the status it found. */
  lemma FatalCodeIsFailure(status: int, hooks: seq<HookId>, behaviour: HookId -> seq<HookAction>)
    ensures FatalCode(status, hooks, behaviour) >= ErrorStatus
    ensures FatalCode(status, hooks, behaviour) >= status
  {
    StatusAfterIsHighest(Merge(status, ErrorStatus), Effects(hooks, behaviour));
  }

  /** Logging an error again changes nothing: its status effect is idempotent. */
  lemma ErrorfIdempotent(status: int)
    ensures Merge(Merge(status, ErrorStatus), ErrorStatus) == Merge(status, ErrorStatus)
  {
  }
}
