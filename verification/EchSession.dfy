/**
  * The ECH key that the sessions of a process share: started, dropped and replaced in any order.
  */
module EchSession {
  import opened Bytes

  /** What happens to the shared key: a session starts, one ends, a server's retry key is adopted. */
  datatype Event = Start(key: Option<bytes>) | Drop | Adopt(retry: bytes)

  datatype State = State(sessions: nat, key: Option<bytes>)

  const INIT := State(0, None)

  predicate Enabled(s: State, e: Event) {
    e.Drop? ==> s.sessions > 0
  }

  function Step(s: State, e: Event): State
    requires Enabled(s, e)
  {
    match e
    case Start(key) => State(s.sessions + 1, if key.Some? || s.sessions == 0 then key else s.key)
    case Drop => State(s.sessions - 1, if s.sessions == 1 then None else s.key)
    case Adopt(retry) => s.(key := if s.key.Some? then Some(retry) else None)
  }

  /** Sessions that have started and not ended. */
  function Live(run: seq<Event>): int {
    if run == [] then 0
    else
      var e := run[|run| - 1];
      Live(run[..|run| - 1]) + if e.Start? then 1 else if e.Drop? then -1 else 0
  }

  /** A run in which only sessions that live end. */
  predicate Possible(run: seq<Event>) {
    run == [] || (Possible(run[..|run| - 1]) && (run[|run| - 1].Drop? ==> Live(run[..|run| - 1]) > 0))
  }

  function Run(run: seq<Event>): (s: State)
    requires Possible(run)
    ensures s.sessions == Live(run)
  {
    if run == [] then INIT else Step(Run(run[..|run| - 1]), run[|run| - 1])
  }

  /** Where the busy period that `run` ends in began: after the last moment with no session. */
  function PeriodStart(run: seq<Event>): (i: nat)
    requires Possible(run)
    ensures i <= |run|
  {
    if Live(run) == 0 then |run| else PeriodStart(run[..|run| - 1])
  }

  predicate Keyed(e: Event) {
    e.Start? && e.key.Some?
  }

  /** Event `i` of the period from `from` sets the key: a start with one, or a retry adopted after such a start. */
  predicate Sets(run: seq<Event>, from: nat, i: nat)
    requires i < |run|
  {
    Keyed(run[i]) || (run[i].Adopt? && exists j :: from <= j < i && Keyed(run[j]))
  }

  function ValueOf(e: Event): Option<bytes> {
    match e case Start(key) => key case Adopt(retry) => Some(retry) case Drop => None
  }

  /** The last event of the period that sets the key. */
  ghost predicate Latest(run: seq<Event>, from: nat, i: nat)
    requires i < |run|
  {
    from <= i && Sets(run, from, i) && forall j :: i < j < |run| ==> !Sets(run, from, j)
  }

  /** The key is that of the last event of the busy period that sets one, and none without any. */
  ghost predicate Holds(run: seq<Event>, from: nat, key: Option<bytes>)
    requires from <= |run|
  {
    if key.None? then forall i :: from <= i < |run| ==> !Keyed(run[i])
    else exists i :: 0 <= i < |run| && Latest(run, from, i) && ValueOf(run[i]) == key
  }

  lemma {:induction false} PeriodIsBusy(run: seq<Event>)
    requires Possible(run)
    ensures Live(run) > 0 ==> PeriodStart(run) < |run| && run[PeriodStart(run)].Start?
    ensures forall n :: PeriodStart(run) < n <= |run| ==> Possible(run[..n]) && Live(run[..n]) > 0
    ensures Possible(run[..PeriodStart(run)]) && Live(run[..PeriodStart(run)]) == 0
    decreases |run|
  {
    if Live(run) == 0 {
      assert run[..|run|] == run;
    } else {
      var before := run[..|run| - 1];
      PeriodIsBusy(before);
      var s := PeriodStart(before);
      assert run[..s] == before[..s];
      forall n | s < n <= |run| ensures Possible(run[..n]) && Live(run[..n]) > 0 {
        assert n < |run| ==> run[..n] == before[..n];
        assert n == |run| ==> run[..n] == run;
      }
    }
  }

  /**
    * For every order of starts, ends and adopted retries: the counter is the number of sessions
    * that live, there is no key when none does, and while some do the key is the one the busy
    * period set last, so that it is there exactly when some session of the period brought one.
    */
  lemma {:induction false} SharedKey(run: seq<Event>)
    requires Possible(run)
    ensures Run(run).sessions == Live(run)
    ensures Live(run) == 0 ==> Run(run).key == None
    ensures Holds(run, PeriodStart(run), Run(run).key)
    decreases |run|
  {
    if run != [] {
      SharedKey(run[..|run| - 1]);
      if Live(run) > 0 {
        HoldsOn(run, PeriodStart(run), Run(run[..|run| - 1]).key);
      }
    }
  }

  /** One more event within a busy period. */
  lemma HoldsOn(run: seq<Event>, from: nat, key: Option<bytes>)
    requires run != [] && from < |run| && Holds(run[..|run| - 1], from, key)
    ensures var last := run[|run| - 1];
            Holds(run, from, if Keyed(last) then last.key
                             else if last.Adopt? && key.Some? then Some(last.retry) else key)
  {
    var before, last := run[..|run| - 1], run[|run| - 1];
    SetsOn(run, from);
    if key.Some? {
      var i :| 0 <= i < |before| && Latest(before, from, i) && ValueOf(before[i]) == key;
      var k := KeyedBy(before, from, i);
      assert Keyed(run[k]);
      if Keyed(last) || last.Adopt? {
        assert Latest(run, from, |before|);
      } else {
        assert Latest(run, from, i);
      }
    } else if Keyed(last) {
      assert Latest(run, from, |before|);
    }
  }

  /** Whatever sets the key, a session that brought one had started by then. */
  lemma KeyedBy(run: seq<Event>, from: nat, i: nat) returns (k: nat)
    requires from <= i < |run| && Sets(run, from, i)
    ensures from <= k <= i && Keyed(run[k])
  {
    if Keyed(run[i]) {
      k := i;
    } else {
      k :| from <= k < i && Keyed(run[k]);
    }
  }

  lemma SetsOn(run: seq<Event>, from: nat)
    requires run != []
    ensures forall i :: 0 <= i < |run| - 1 ==> run[..|run| - 1][i] == run[i]
    ensures forall i :: 0 <= i < |run| - 1 ==> Sets(run, from, i) == Sets(run[..|run| - 1], from, i)
  {
  }

  /** The process-wide key and counter, under their locks. */
  class SharedEch {
    var sessions: nat
    var key: Option<bytes>
    ghost var run: seq<Event>

    constructor ()
      ensures Valid() && run == []
    {
      sessions, key, run := 0, None, [];
    }

    ghost predicate Valid()
      reads this
    {
      Possible(run) && Run(run) == State(sessions, key)
    }

    method Start(ech: Option<bytes>)
      requires Valid()
      modifies this
      ensures Valid() && run == old(run) + [Event.Start(ech)]
    {
      assert (run + [Event.Start(ech)])[..|run|] == run;
      run := run + [Event.Start(ech)];
      sessions := sessions + 1;
      if ech.Some? || sessions == 1 {
        key := ech;
      }
    }

    method Drop()
      requires Valid() && Live(run) > 0
      modifies this
      ensures Valid() && run == old(run) + [Event.Drop]
    {
      assert (run + [Event.Drop])[..|run|] == run;
      run := run + [Event.Drop];
      sessions := sessions - 1;
      if sessions == 0 {
        key := None;
      }
    }

    method AdoptRetry(retry: bytes)
      requires Valid()
      modifies this
      ensures Valid() && run == old(run) + [Adopt(retry)]
    {
      assert (run + [Adopt(retry)])[..|run|] == run;
      run := run + [Adopt(retry)];
      if key.Some? {
        key := Some(retry);
      }
    }
  }
}
