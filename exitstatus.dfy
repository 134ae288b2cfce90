/**
 * exitstatus.go: a process-wide exit status that only ever rises, a list of
 * shutdown hooks, and ExitWithStatus, which runs the hooks once, in the order
 * they were registered, and then ends the process with the status.
 *
 * The package globals become the fields of one Coordinator object.  A hook
 * is known by its identity; what running it does to the coordinator is given
 * by a behaviour function as a list of SetExitStatus and Atexit calls.
 */
module ExitStatus {

  type HookId = nat

  /** What a running hook may do to the coordinator. */
  datatype HookAction =
    | RaiseStatus(status: int) // SetExitStatus(status)
    | Register(hook: HookId)   // Atexit(hook)

  /**
   * How ExitWithStatus ends: os.Exit with `code` after running the hooks in
   * `ran`, or waiting for ever on the in-progress mutex held by an earlier
   * call.  It never returns to its caller.
   */
  datatype ExitOutcome = Exited(ran: seq<HookId>, code: int) | Blocked

  /** The status after SetExitStatus(requested): the larger of the two. */
  function Merge(current: int, requested: int): (r: int)
    ensures r >= current && r >= requested
    ensures r == current || r == requested
  {
    if current < requested then requested else current
  }

  /** The order in which statuses are requested does not matter. */
  lemma MergeCommutes(current: int, a: int, b: int)
    ensures Merge(Merge(current, a), b) == Merge(Merge(current, b), a)
  {
  }

  /** The status after a run of hook actions, each RaiseStatus merged in turn. */
  function StatusAfter(status: int, actions: seq<HookAction>): int
    decreases |actions|
  {
    if |actions| == 0 then status
    else
      var next := if actions[0].RaiseStatus? then Merge(status, actions[0].status) else status;
      StatusAfter(next, actions[1..])
  }

  /**
   * That status is the highest of the starting one and every status the
   * actions request: no lower than any of them, and equal to one of them.
   */
  lemma {:induction false} StatusAfterIsHighest(status: int, actions: seq<HookAction>)
    ensures var r := StatusAfter(status, actions);
      && r >= status
      && (forall k :: 0 <= k < |actions| && actions[k].RaiseStatus? ==> r >= actions[k].status)
      && (r == status || exists k :: 0 <= k < |actions| && actions[k] == RaiseStatus(r))
    decreases |actions|
  {
    if |actions| > 0 {
      var next := if actions[0].RaiseStatus? then Merge(status, actions[0].status) else status;
      var r := StatusAfter(next, actions[1..]);
      StatusAfterIsHighest(next, actions[1..]);
      assert forall k :: 1 <= k < |actions| ==> actions[k] == actions[1..][k - 1];
      if r != next {
        var k :| 0 <= k < |actions[1..]| && actions[1..][k] == RaiseStatus(r);
        assert actions[k + 1] == RaiseStatus(r);
      }
    }
  }

  /** The hooks a list of hook actions registers, in order. */
  function Registered(actions: seq<HookAction>): seq<HookId> {
    if |actions| == 0 then []
    else if actions[0].Register? then [actions[0].hook] + Registered(actions[1..])
    else Registered(actions[1..])
  }

  /** Exactly the hooks named by Register actions are registered, as often as they are named. */
  lemma {:induction false} RegisteredExactly(actions: seq<HookAction>, hook: HookId)
    ensures multiset(Registered(actions))[hook] == multiset(actions)[Register(hook)]
  {
    if |actions| > 0 {
      RegisteredExactly(actions[1..], hook);
      assert actions == [actions[0]] + actions[1..];
    }
  }

  /** Everything the hooks in `hooks` do, one hook after the other. */
  function Effects(hooks: seq<HookId>, behaviour: HookId -> seq<HookAction>): seq<HookAction> {
    if |hooks| == 0 then [] else Effects(hooks[..|hooks| - 1], behaviour) + behaviour(hooks[|hooks| - 1])
  }

  /** Running more actions continues from the status the earlier ones left. */
  lemma {:induction false} StatusAfterAppend(status: int, a: seq<HookAction>, b: seq<HookAction>)
    ensures StatusAfter(status, a + b) == StatusAfter(StatusAfter(status, a), b)
    decreases |a|
  {
    if |a| > 0 {
      assert (a + b)[1..] == a[1..] + b;
      var next := if a[0].RaiseStatus? then Merge(status, a[0].status) else status;
      StatusAfterAppend(next, a[1..], b);
    } else {
      assert a + b == b;
    }
  }

  /** Registrations of consecutive action lists follow one another. */
  lemma {:induction false} RegisteredAppend(a: seq<HookAction>, b: seq<HookAction>)
    ensures Registered(a + b) == Registered(a) + Registered(b)
    decreases |a|
  {
    if |a| > 0 {
      assert (a + b)[1..] == a[1..] + b;
      RegisteredAppend(a[1..], b);
    } else {
      assert a + b == b;
    }
  }

  /**
   * The exit code is the status that stood before the hooks ran, raised by
   * what the hooks asked for: never lower than either.
   */
  lemma ExitCodeBounds(status: int, hooks: seq<HookId>, behaviour: HookId -> seq<HookAction>, k: nat)
    requires k < |hooks|
    ensures var code := StatusAfter(status, Effects(hooks, behaviour));
      && code >= status
      && forall a :: a in behaviour(hooks[k]) && a.RaiseStatus? ==> code >= a.status
  {
    EffectsContain(hooks, behaviour, k);
    StatusAfterIsHighest(status, Effects(hooks, behaviour));
  }

  /** Every action of every hook in the list is among the effects. */
  lemma {:induction false} EffectsContain(hooks: seq<HookId>, behaviour: HookId -> seq<HookAction>, k: nat)
    requires k < |hooks|
    ensures forall a :: a in behaviour(hooks[k]) ==> a in Effects(hooks, behaviour)
    decreases |hooks|
  {
    var init := hooks[..|hooks| - 1];
    if k < |hooks| - 1 {
      EffectsContain(init, behaviour, k);
      assert init[k] == hooks[k];
    }
  }

  class Coordinator {
    /** exitStatus */
    var status: int
    /** exitFuncs */
    var hooks: seq<HookId>
    /** Whether exitInProgressMutex is held: ExitWithStatus has begun. */
    var inProgress: bool

    /** The package's initial state: status 0 and no hooks. */
    constructor ()
      ensures status == 0 && hooks == [] && !inProgress
    {
      status := 0;
      hooks := [];
      inProgress := false;
    }

    /** Atexit: `hook` is run after every hook registered before it. */
    method Atexit(hook: HookId)
      modifies this
      ensures hooks == old(hooks) + [hook]
      ensures status == old(status) && inProgress == old(inProgress)
    {
      hooks := hooks + [hook];
    }

    /** SetExitStatus: raises the status to `requested` if that is higher; it never falls. */
    method SetExitStatus(requested: int)
      modifies this
      ensures status == Merge(old(status), requested)
      ensures hooks == old(hooks) && inProgress == old(inProgress)
    {
      if status < requested {
        status := requested;
      }
    }

    /** Runs one hook: its calls of SetExitStatus and Atexit, in order. */
    method RunHook(actions: seq<HookAction>)
      modifies this
      ensures status == StatusAfter(old(status), actions)
      ensures hooks == old(hooks) + Registered(actions)
      ensures inProgress == old(inProgress)
    {
      var j := 0;
      while j < |actions|
        invariant 0 <= j <= |actions|
        decreases |actions| - j
        invariant status == StatusAfter(old(status), actions[..j])
        invariant hooks == old(hooks) + Registered(actions[..j])
        invariant inProgress == old(inProgress)
      {
        assert actions[..j + 1] == actions[..j] + [actions[j]];
        StatusAfterAppend(old(status), actions[..j], [actions[j]]);
        RegisteredAppend(actions[..j], [actions[j]]);
        match actions[j] {
          case RaiseStatus(s) => SetExitStatus(s);
          case Register(h) => Atexit(h);
        }
        j := j + 1;
      }
      assert actions[..j] == actions;
    }

    /**
     * ExitWithStatus: takes the in-progress mutex, runs the hooks registered
     * so far exactly once each and in order (hooks they register are not
     * run), and exits with the status they leave.  A call made while another
     * is in progress waits for ever.
     */
    method ExitWithStatus(behaviour: HookId -> seq<HookAction>) returns (outcome: ExitOutcome)
      modifies this
      ensures old(inProgress) ==> outcome == Blocked && status == old(status) && hooks == old(hooks) && inProgress
      ensures !old(inProgress) ==>
        var effects := Effects(old(hooks), behaviour);
        && outcome == Exited(old(hooks), StatusAfter(old(status), effects))
        && status == outcome.code
        && hooks == old(hooks) + Registered(effects)
        && inProgress
    {
      if inProgress {
        return Blocked;
      }
      inProgress := true;
      var funcs := hooks;
      var ran := [];
      var i := 0;
      while i < |funcs|
        invariant 0 <= i <= |funcs|
        invariant ran == funcs[..i]
        invariant status == StatusAfter(old(status), Effects(funcs[..i], behaviour))
        invariant hooks == funcs + Registered(Effects(funcs[..i], behaviour))
        invariant inProgress
      {
        var f := funcs[i];
        assert funcs[..i + 1][..i] == funcs[..i];
        assert Effects(funcs[..i + 1], behaviour) == Effects(funcs[..i], behaviour) + behaviour(f);
        StatusAfterAppend(old(status), Effects(funcs[..i], behaviour), behaviour(f));
        RegisteredAppend(Effects(funcs[..i], behaviour), behaviour(f));
        RunHook(behaviour(f));
        ran := ran + [f];
        i := i + 1;
      }
      assert funcs[..i] == funcs;
      return Exited(ran, status);
    }
  }
}
