/**
  * The native engine's life: calls of nativeStart, the worker thread each may spawn, and calls of
  * nativeStop, in any interleaving of their atomic steps on ACTIVE, RUNS and NEXT_HANDLE.
  */
module Worker {
  import opened Bytes

  /** How far a start, and then the worker it spawned, has come. */
  datatype Phase =
    | Entered       // nothing done yet
    | Claimed       // ACTIVE was false and is now true
    | Allotted      // has a handle
    | Registered    // its sender is in RUNS
    | SpawnFailed   // no thread
    | Unregistered  // its sender is out of RUNS again
    | Released      // ACTIVE is false again
    | Refused       // the descriptor is closed, and 0 returned
    | Building      // the worker builds its runtime
    | Running       // the worker runs the engine, which owns the descriptor
    | Finishing     // the engine is over
    | Removed       // its sender is out of RUNS
    | Finished      // ACTIVE is false again

  /** `disposed` counts how often the descriptor was closed or handed to an owner. */
  datatype Call = Call(phase: Phase, handle: Option<nat>, disposed: nat, stopped: Option<nat>)

  /** Between the claim of ACTIVE and its release. */
  predicate Holding(p: Phase) {
    !(p.Entered? || p.Released? || p.Refused? || p.Finished?)
  }

  predicate MayBeInRuns(p: Phase) {
    p.Registered? || p.SpawnFailed? || p.Building? || p.Running? || p.Finishing?
  }

  predicate Working(p: Phase) {
    p.Building? || p.Running? || p.Finishing? || p.Removed?
  }

  predicate Disposed(p: Phase) {
    p.Refused? || p.Running? || p.Finishing? || p.Removed? || p.Finished?
  }

  /** From when it is given out on; a call that was refused may have come so far, or not. */
  predicate HandleFits(p: Phase, handle: Option<nat>) {
    p.Refused? || (handle.Some? <==> !p.Entered? && !p.Claimed?)
  }

  /** The steps from one phase to the next. */
  predicate Follows(p: Phase, q: Phase) {
    match p
    case Entered => q.Claimed? || q.Refused?
    case Claimed => q.Allotted?
    case Allotted => q.Registered?
    case Registered => q.Building? || q.SpawnFailed?
    case SpawnFailed => q.Unregistered?
    case Unregistered => q.Released?
    case Released => q.Refused?
    case Building => q.Running? || q.Finishing?
    case Running => q.Finishing?
    case Finishing => q.Removed?
    case Removed => q.Finished?
    case Refused => q.Refused?
    case Finished => q.Finished?
  }

  ghost predicate Held(calls: map<nat, Call>) {
    exists c :: c in calls && Holding(calls[c].phase)
  }

  /** ACTIVE is the claim of one call. */
  ghost predicate OneHolder(active: bool, calls: map<nat, Call>) {
    && (forall c, d :: c in calls && d in calls && Holding(calls[c].phase) && Holding(calls[d].phase) ==> c == d)
    && (active <==> Held(calls))
  }

  /** Handles are given out once, and a run is stopped by its own alone. */
  ghost predicate OwnHandles(calls: map<nat, Call>, nextHandle: nat) {
    && (forall c :: c in calls ==> HandleFits(calls[c].phase, calls[c].handle))
    && (forall c :: c in calls && calls[c].handle.Some? ==> 1 <= calls[c].handle.value < nextHandle)
    && (forall c, d :: c in calls && d in calls && c != d && calls[c].handle.Some? ==>
          calls[c].handle != calls[d].handle)
    && (forall c :: c in calls && calls[c].stopped.Some? ==> calls[c].stopped == calls[c].handle)
  }

  /** A sender in RUNS is that of a call that holds ACTIVE, under its handle. */
  ghost predicate OwnSenders(runs: map<nat, nat>, calls: map<nat, Call>) {
    forall h :: h in runs ==>
      runs[h] in calls && MayBeInRuns(calls[runs[h]].phase) && calls[runs[h]].handle == Some(h)
  }

  /** A descriptor is closed or handed over once, and by the end of its call. */
  ghost predicate DisposedOnce(calls: map<nat, Call>) {
    forall c :: c in calls ==> calls[c].disposed == if Disposed(calls[c].phase) then 1 else 0
  }

  /** RUNS has one entry at most. */
  lemma OneRun(active: bool, runs: map<nat, nat>, calls: map<nat, Call>)
    requires OneHolder(active, calls) && OwnSenders(runs, calls)
    ensures |runs| <= 1 && (!active ==> runs == map[])
  {
    if h :| h in runs {
      assert Holding(calls[runs[h]].phase);
      assert active;
      forall g | g in runs ensures g == h {
        assert Holding(calls[runs[g]].phase) && runs[g] == runs[h];
      }
      assert runs.Keys == {h};
      assert |runs| == |runs.Keys|;
    } else {
      assert runs == map[];
    }
  }

  /** At most one worker is at work. */
  lemma OneWorker(active: bool, calls: map<nat, Call>, c: nat, d: nat)
    requires OneHolder(active, calls) && c in calls && d in calls
    requires Working(calls[c].phase) && Working(calls[d].phase)
    ensures c == d && active
  {
    assert Holding(calls[c].phase) && Holding(calls[d].phase);
  }

  /** A step of the holder, or one that neither claims nor releases. */
  lemma HolderMoves(active: bool, active': bool, calls: map<nat, Call>, c: nat, call: Call)
    requires OneHolder(active, calls) && c in calls
    requires || (Holding(calls[c].phase) == Holding(call.phase) && active' == active)
             || (Holding(calls[c].phase) && !Holding(call.phase) && !active')
             || (!active && Holding(call.phase) && active')
    ensures OneHolder(active', calls[c := call])
  {
    var calls' := calls[c := call];
    assert Holding(calls[c].phase) ==> active;
    if Held(calls) && Holding(calls[c].phase) == Holding(call.phase) {
      var d :| d in calls && Holding(calls[d].phase);
      assert d in calls' && Holding(calls'[d].phase);
    }
    if Holding(call.phase) {
      assert calls'[c].phase == call.phase;
      assert Held(calls');
    }
  }

  lemma SendersMove(runs: map<nat, nat>, calls: map<nat, Call>, c: nat, call: Call)
    requires OwnSenders(runs, calls) && c in calls
    requires calls[c].handle.Some? ==> call.handle == calls[c].handle
    requires MayBeInRuns(call.phase) || !MayBeInRuns(calls[c].phase)
             || (calls[c].handle.Some? && calls[c].handle.value !in runs)
    ensures OwnSenders(runs, calls[c := call])
  {
  }

  lemma CallOf(calls: map<nat, Call>, nextHandle: nat, c: nat)
    requires OwnHandles(calls, nextHandle) && DisposedOnce(calls) && c in calls
    ensures HandleFits(calls[c].phase, calls[c].handle)
    ensures calls[c].disposed == if Disposed(calls[c].phase) then 1 else 0
  {
  }

  lemma SenderOf(runs: map<nat, nat>, calls: map<nat, Call>, h: nat)
    requires OwnSenders(runs, calls) && h in runs
    ensures runs[h] in calls && calls[runs[h]].handle == Some(h)
  {
  }

  /** Stopping one run: only its own entry changes. */
  lemma HandlesStop(calls: map<nat, Call>, nextHandle: nat, c: nat, h: nat)
    requires OwnHandles(calls, nextHandle) && c in calls && calls[c].handle == Some(h)
    ensures OwnHandles(calls[c := calls[c].(stopped := Some(h))], nextHandle)
  {
  }

  datatype Action =
    | Enter(call: nat)
    | Advance(call: nat, ok: bool)
    | Stop(handle: nat)

  // ---------------------------------------------------------------- the steps on values

  /** ACTIVE, RUNS, NEXT_HANDLE and where the threads are. */
  datatype State = State(active: bool, runs: map<nat, nat>, nextHandle: nat, calls: map<nat, Call>)

  /** The next phase of a call, with `ok` and ACTIVE as it finds them. */
  function PhaseAfter(p: Phase, ok: bool, active: bool): (q: Phase)
    ensures Follows(p, q)
  {
    match p
    case Entered => if ok && !active then Claimed else Refused
    case Claimed => Allotted
    case Allotted => Registered
    case Registered => if ok then Building else SpawnFailed
    case SpawnFailed => Unregistered
    case Unregistered => Released
    case Released => Refused
    case Building => if ok then Running else Finishing
    case Running => Finishing
    case Finishing => Removed
    case Removed => Finished
    case Refused => Refused
    case Finished => Finished
  }

  /** A call in its next phase, with a handle when it is given out and the descriptor disposed of when that is due. */
  function CallAfter(call: Call, phase: Phase, nextHandle: nat): Call {
    call.(phase := phase,
          handle := if phase.Allotted? then Some(nextHandle) else call.handle,
          disposed := call.disposed + if Disposed(phase) && !Disposed(call.phase) then 1 else 0)
  }

  /** ACTIVE is set by a claim and cleared by a release, and RUNS has what is registered and not yet unregistered. */
  function Advanced(s: State, c: nat, ok: bool): State
    requires c in s.calls
  {
    var was := s.calls[c];
    var call := CallAfter(was, PhaseAfter(was.phase, ok, s.active), s.nextHandle);
    State(if Holding(was.phase) == Holding(call.phase) then s.active else Holding(call.phase),
          if call.handle.None? then s.runs
          else if call.phase.Registered? then s.runs[call.handle.value := c]
          else if call.phase.Unregistered? || call.phase.Removed? then s.runs - {call.handle.value}
          else s.runs,
          s.nextHandle + if call.phase.Allotted? then 1 else 0,
          s.calls[c := call])
  }

  /** The run whose sender is in RUNS under a handle is told to stop. */
  function Stopped(s: State, h: nat): State {
    if h in s.runs && s.runs[h] in s.calls then
      s.(runs := s.runs - {h}, calls := s.calls[s.runs[h] := s.calls[s.runs[h]].(stopped := Some(h))])
    else s
  }

  /** One action of a schedule; what cannot be done is passed over. */
  function Step(s: State, action: Action): State {
    match action
    case Enter(c) => if c in s.calls then s else s.(calls := s.calls[c := Call(Entered, None, 0, None)])
    case Advance(c, ok) => if c in s.calls then Advanced(s, c, ok) else s
    case Stop(h) => Stopped(s, h)
  }

  function StateAfter(s: State, schedule: seq<Action>): State {
    if schedule == [] then s
    else Step(StateAfter(s, schedule[..|schedule| - 1]), schedule[|schedule| - 1])
  }

  // ---------------------------------------------------------------- nothing is undone

  datatype Branch = Common | Failed | AtWork

  predicate Refusal(p: Phase) {
    p.SpawnFailed? || p.Unregistered? || p.Released? || p.Refused?
  }

  function BranchOf(p: Phase): Branch {
    if p.Entered? || p.Claimed? || p.Allotted? || p.Registered? then Common else if Refusal(p) then Failed else AtWork
  }

  function Rank(p: Phase): nat {
    match p
    case Entered => 0
    case Claimed => 1
    case Allotted => 2
    case Registered => 3
    case SpawnFailed => 4
    case Unregistered => 5
    case Released => 6
    case Refused => 7
    case Building => 4
    case Running => 5
    case Finishing => 6
    case Removed => 7
    case Finished => 8
  }

  /** A call can come from one phase to the other: further on, and not from one branch to another. */
  predicate LeadsTo(p: Phase, q: Phase) {
    p == q || (Rank(p) < Rank(q) && (BranchOf(p) == Common || BranchOf(p) == BranchOf(q)))
  }

  /** Nothing a call has done is undone. */
  predicate CallOnward(was: Call, now: Call) {
    && LeadsTo(was.phase, now.phase) && was.disposed <= now.disposed
    && (was.handle.Some? ==> now.handle == was.handle) && (was.stopped.Some? ==> now.stopped == was.stopped)
  }

  ghost predicate Onward(was: map<nat, Call>, now: map<nat, Call>) {
    forall c :: c in was ==> c in now && CallOnward(was[c], now[c])
  }

  lemma OnwardThrough(x: map<nat, Call>, y: map<nat, Call>, z: map<nat, Call>)
    requires Onward(x, y) && Onward(y, z)
    ensures Onward(x, z)
  {
    hide LeadsTo;
    forall c | c in x ensures CallOnward(x[c], z[c]) {
      LeadsThrough(x[c].phase, y[c].phase, z[c].phase);
    }
  }

  lemma LeadsThrough(p: Phase, q: Phase, r: Phase)
    requires LeadsTo(p, q) && LeadsTo(q, r)
    ensures LeadsTo(p, r)
  {
  }

  lemma PhaseOnward(p: Phase, ok: bool, active: bool)
    ensures LeadsTo(p, PhaseAfter(p, ok, active))
    ensures PhaseAfter(p, ok, active).Allotted? <==> p.Claimed?
  {
  }

  lemma CallOnwardItself(call: Call)
    ensures CallOnward(call, call)
  {
  }

  lemma OnwardItself(calls: map<nat, Call>)
    ensures Onward(calls, calls)
  {
    hide CallOnward;
    forall c | c in calls ensures CallOnward(calls[c], calls[c]) {
      CallOnwardItself(calls[c]);
    }
  }

  lemma OnwardOne(calls: map<nat, Call>, c: nat, call: Call)
    requires c in calls ==> CallOnward(calls[c], call)
    ensures Onward(calls, calls[c := call])
  {
    hide CallOnward;
    forall d | d in calls ensures CallOnward(calls[d], calls[d]) {
      CallOnwardItself(calls[d]);
    }
  }

  /** No action undoes anything, given that handles are where they belong. */
  lemma StepOnward(s: State, action: Action)
    requires OwnHandles(s.calls, s.nextHandle) && OwnSenders(s.runs, s.calls)
    ensures Onward(s.calls, Step(s, action).calls)
  {
    hide PhaseAfter, LeadsTo, Onward;
    OnwardItself(s.calls);
    match action
    case Enter(c) =>
      if c !in s.calls {
        OnwardOne(s.calls, c, Call(Entered, None, 0, None));
      }
    case Advance(c, ok) =>
      if c in s.calls {
        var was := s.calls[c];
        PhaseOnward(was.phase, ok, s.active);
        OnwardOne(s.calls, c, CallAfter(was, PhaseAfter(was.phase, ok, s.active), s.nextHandle));
      }
    case Stop(h) =>
      if h in s.runs {
        var was := s.calls[s.runs[h]];
        CallOnwardItself(was);
        OnwardOne(s.calls, s.runs[h], was.(stopped := Some(h)));
      }
  }

  class Engine {
    var active: bool
    var runs: map<nat, nat>
    var nextHandle: nat
    /** Where the threads are. */
    var calls: map<nat, Call>

    function Now(): State
      reads this
    {
      State(active, runs, nextHandle, calls)
    }

    ghost predicate Valid()
      reads this
    {
      && OneHolder(active, calls) && OwnHandles(calls, nextHandle) && OwnSenders(runs, calls)
      && DisposedOnce(calls) && nextHandle >= 1
    }

    constructor ()
      ensures Valid() && !active && runs == map[] && calls == map[]
    {
      active, runs, nextHandle, calls := false, map[], 1, map[];
    }

    /** nativeStart is called, with a descriptor of its own. */
    method Enter(c: nat)
      requires Valid() && c !in calls
      modifies `calls
      ensures Valid() && calls == old(calls)[c := Call(Entered, None, 0, None)]
    {
      ghost var before := calls;
      calls := calls[c := Call(Entered, None, 0, None)];
      if Held(before) {
        var d :| d in before && Holding(before[d].phase);
        assert d in calls && calls[d] == before[d];
      }
    }

    /**
      * The next atomic step of a call, or of its worker; `ok` is how it goes where that is up to
      * others: a usable config, a thread, a runtime.
      */
    method Advance(c: nat, ok: bool)
      requires Valid() && c in calls
      modifies this
      ensures Valid() && calls.Keys == old(calls).Keys && old(nextHandle) <= nextHandle
      ensures forall d :: d in calls && d != c ==> calls[d] == old(calls)[d]
      ensures Follows(old(calls)[c].phase, calls[c].phase) && calls[c].stopped == old(calls)[c].stopped
      ensures old(calls)[c].handle.Some? ==> calls[c].handle == old(calls)[c].handle
      ensures old(calls)[c].phase.Entered? ==> (calls[c].phase.Claimed? <==> ok && !old(active))
      ensures calls[c].phase.Registered? && old(calls)[c].phase.Allotted? ==>
                calls[c].handle.Some? && calls[c].handle.value in runs && runs[calls[c].handle.value] == c
      ensures Now() == Advanced(old(Now()), c, ok)
    {
      hide OneHolder, OwnHandles, OwnSenders, DisposedOnce;
      CallOf(calls, nextHandle, c);
      if Working(calls[c].phase) || calls[c].phase.Finished? {
        AdvanceWorker(c, ok);
      } else {
        AdvanceStart(c, ok);
      }
    }

    /** A step of nativeStart. */
    method AdvanceStart(c: nat, ok: bool)
      requires Valid() && c in calls && !Working(calls[c].phase) && !calls[c].phase.Finished?
      modifies this
      ensures Valid() && Now() == Advanced(old(Now()), c, ok)
    {
      hide OneHolder, OwnHandles, OwnSenders, DisposedOnce;
      CallOf(calls, nextHandle, c);
      var call := calls[c];
      match call.phase
      case Entered =>
        if !ok {
          Move(c, call.(phase := Refused, disposed := call.disposed + 1), active);
        } else if active {
          Move(c, call.(phase := Refused, disposed := call.disposed + 1), active);
        } else {
          Move(c, call.(phase := Claimed), true);
        }
      case Claimed =>
        Allot(c);
      case Allotted =>
        Register(c);
      case Registered =>
        Move(c, call.(phase := if ok then Building else SpawnFailed), active);
      case SpawnFailed =>
        Unregister(c, Unregistered);
      case Unregistered =>
        Move(c, call.(phase := Released), false);
      case Released =>
        Move(c, call.(phase := Refused, disposed := call.disposed + 1), active);
      case Refused =>
        assert calls == calls[c := call];
    }

    /** A step of the worker thread. */
    method AdvanceWorker(c: nat, ok: bool)
      requires Valid() && c in calls && (Working(calls[c].phase) || calls[c].phase.Finished?)
      modifies this
      ensures Valid() && Now() == Advanced(old(Now()), c, ok)
    {
      hide OneHolder, OwnHandles, OwnSenders, DisposedOnce;
      CallOf(calls, nextHandle, c);
      var call := calls[c];
      match call.phase
      case Building =>
        Move(c, call.(phase := if ok then Running else Finishing, disposed := call.disposed + 1), active);
      case Running =>
        Move(c, call.(phase := Finishing), active);
      case Finishing =>
        Unregister(c, Removed);
      case Removed =>
        Move(c, call.(phase := Finished), false);
      case Finished =>
        assert calls == calls[c := call];
    }

    /** A step that leaves RUNS and NEXT_HANDLE alone. */
    method Move(c: nat, call: Call, active': bool)
      requires Valid() && c in calls
      requires call.handle == calls[c].handle && call.stopped == calls[c].stopped
      requires call.disposed == if Disposed(call.phase) then 1 else 0
      requires HandleFits(calls[c].phase, calls[c].handle) ==> HandleFits(call.phase, call.handle)
      requires MayBeInRuns(call.phase) || !MayBeInRuns(calls[c].phase)
      requires || (Holding(calls[c].phase) == Holding(call.phase) && active' == active)
               || (Holding(calls[c].phase) && !Holding(call.phase) && !active')
               || (!active && Holding(call.phase) && active')
      modifies `active, `calls
      ensures Valid() && calls == old(calls)[c := call] && active == active'
    {
      HolderMoves(active, active', calls, c, call);
      SendersMove(runs, calls, c, call);
      calls := calls[c := call];
      active := active';
    }

    method Allot(c: nat)
      requires Valid() && c in calls && calls[c].phase.Claimed?
      modifies `nextHandle, `calls
      ensures Valid() && nextHandle == old(nextHandle) + 1
      ensures old(calls)[c].handle.None?
      ensures calls == old(calls)[c := old(calls)[c].(phase := Allotted, handle := Some(old(nextHandle)))]
    {
      var call := calls[c].(phase := Allotted, handle := Some(nextHandle));
      nextHandle := nextHandle + 1;
      HolderMoves(active, active, calls, c, call);
      SendersMove(runs, calls, c, call);
      calls := calls[c := call];
    }

    method Register(c: nat)
      requires Valid() && c in calls && calls[c].phase.Allotted?
      modifies `runs, `calls
      ensures Valid() && calls == old(calls)[c := old(calls)[c].(phase := Registered)]
      ensures calls[c].handle.Some? && runs == old(runs)[calls[c].handle.value := c]
    {
      var call := calls[c].(phase := Registered);
      HolderMoves(active, active, calls, c, call);
      SendersMove(runs, calls, c, call);
      calls := calls[c := call];
      runs := runs[call.handle.value := c];
    }

    method Unregister(c: nat, phase: Phase)
      requires Valid() && c in calls && MayBeInRuns(calls[c].phase)
      requires phase == if calls[c].phase.SpawnFailed? then Unregistered else Removed
      requires calls[c].phase.SpawnFailed? || calls[c].phase.Finishing?
      modifies `runs, `calls
      ensures Valid() && calls == old(calls)[c := old(calls)[c].(phase := phase)]
      ensures calls[c].handle.Some? && runs == old(runs) - {calls[c].handle.value}
    {
      var call := calls[c].(phase := phase);
      HolderMoves(active, active, calls, c, call);
      runs := runs - {call.handle.value};
      SendersMove(runs, calls, c, call);
      calls := calls[c := call];
    }

    /** nativeStop: the run that the handle was returned for is told, if it is still in RUNS. */
    method Stop(h: nat)
      requires Valid()
      modifies `runs, `calls
      ensures Valid() && runs == old(runs) - {h} && calls.Keys == old(calls).Keys
      ensures forall c :: c in calls ==> calls[c] == old(calls)[c].(stopped := calls[c].stopped)
      ensures forall c :: c in calls && calls[c].stopped != old(calls)[c].stopped ==>
                calls[c].handle == Some(h) && calls[c].stopped == Some(h) && h in old(runs)
      ensures h in old(runs) ==> old(runs)[h] in calls && calls[old(runs)[h]].stopped == Some(h)
      ensures Now() == Stopped(old(Now()), h)
    {
      hide OneHolder, OwnHandles;
      if h in runs {
        var c := runs[h];
        SenderOf(runs, calls, h);
        HandlesStop(calls, nextHandle, c, h);
        var call := calls[c].(stopped := Some(h));
        HolderMoves(active, active, calls, c, call);
        SendersMove(runs, calls, c, call);
        calls := calls[c := call];
        runs := runs - {h};
      } else {
        assert runs - {h} == runs;
      }
    }

    /**
      * Any interleaving of the steps of any number of calls: what holds of one step holds of all, it
      * comes to what the steps come to one after the other, and nothing a call has done is undone.
      */
    method Interleave(schedule: seq<Action>)
      requires Valid()
      modifies this
      ensures Valid() && |runs| <= 1 && (!active ==> runs == map[])
      ensures Now() == StateAfter(old(Now()), schedule) && Onward(old(calls), calls)
      ensures forall i :: 0 <= i < |schedule| && schedule[i].Enter? ==> schedule[i].call in calls
    {
      hide OneHolder, OwnHandles, OwnSenders, DisposedOnce, CallOnward, Advanced, Stopped;
      OnwardItself(calls);
      assert schedule[..0] == [];
      for i := 0 to |schedule|
        invariant Valid() && Now() == StateAfter(old(Now()), schedule[..i]) && Onward(old(calls), calls)
        invariant forall k :: 0 <= k < i && schedule[k].Enter? ==> schedule[k].call in calls
      {
        assert schedule[..i + 1][..i] == schedule[..i];
        ghost var before := calls;
        StepOnward(Now(), schedule[i]);
        match schedule[i] {
          case Enter(c) =>
            if c !in calls {
              Enter(c);
            }
          case Advance(c, ok) =>
            if c in calls {
              Advance(c, ok);
            }
          case Stop(h) =>
            Stop(h);
        }
        OnwardThrough(old(calls), before, calls);
      }
      assert schedule[..|schedule|] == schedule;
      OneRun(active, runs, calls);
    }
  }
}
