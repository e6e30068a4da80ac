/**
  * Connecting to one of several addresses (RFC 8305): the order they are tried in, and the race
  * between the attempts.
  */
module Egress {
  import opened Bytes

  datatype Address = Address(v4: bool, host: nat)

  // ---------------------------------------------------------------- the order (section 4)

  /** The addresses of one family, in their own order. */
  function Family(addresses: seq<Address>, v4: bool): (r: seq<Address>)
    ensures forall i :: 0 <= i < |r| ==> r[i].v4 == v4
  {
    if addresses == [] then []
    else if addresses[0].v4 == v4 then [addresses[0]] + Family(addresses[1..], v4)
    else Family(addresses[1..], v4)
  }

  /** By turns from both, then the rest of the longer one. */
  function ByTurns(lead: seq<Address>, other: seq<Address>): seq<Address>
    decreases |lead| + |other|
  {
    if lead == [] then other
    else if other == [] then lead
    else [lead[0], other[0]] + ByTurns(lead[1..], other[1..])
  }

  method Partition(addresses: seq<Address>, v4: bool) returns (lead: seq<Address>, other: seq<Address>)
    ensures lead == Family(addresses, v4) && other == Family(addresses, !v4)
  {
    lead, other := [], [];
    assert addresses[0..] == addresses;
    for i := 0 to |addresses|
      invariant Family(addresses, v4) == lead + Family(addresses[i..], v4)
      invariant Family(addresses, !v4) == other + Family(addresses[i..], !v4)
    {
      assert addresses[i..][1..] == addresses[i + 1..];
      if addresses[i].v4 == v4 {
        lead := lead + [addresses[i]];
      } else {
        other := other + [addresses[i]];
      }
    }
  }

  method Interleaved(addresses: seq<Address>) returns (order: seq<Address>)
    ensures order == if addresses == [] then []
                     else ByTurns(Family(addresses, addresses[0].v4), Family(addresses, !addresses[0].v4))
  {
    hide Family;
    if addresses == [] {
      return addresses;
    }
    var lead, other := Partition(addresses, addresses[0].v4);
    order := TakeTurns(lead, other);
  }

  method TakeTurns(first: seq<Address>, second: seq<Address>) returns (order: seq<Address>)
    ensures order == ByTurns(first, second)
  {
    hide ByTurns, Front, Rest;
    var lead, other := first, second;
    order := [];
    while lead != [] || other != []
      invariant ByTurns(first, second) == order + ByTurns(lead, other)
      decreases |lead| + |other|
    {
      TurnsStep(lead, other, order);
      lead, order := TakeFront(lead, order);
      other, order := TakeFront(other, order);
    }
    TurnsOver();
  }

  /** The front of a list, if it has one, goes to the end of `order`. */
  method TakeFront(x: seq<Address>, order: seq<Address>) returns (rest: seq<Address>, longer: seq<Address>)
    ensures rest == Rest(x) && longer == order + Front(x) && (x != [] ==> |rest| < |x|) && |rest| <= |x|
  {
    rest, longer := x, order;
    if x != [] {
      longer := order + x[..1];
      rest := x[1..];
    }
  }

  lemma TurnsOver()
    ensures ByTurns([], []) == []
  {
  }

  function Front(x: seq<Address>): seq<Address> {
    if x == [] then [] else x[..1]
  }

  function Rest(x: seq<Address>): seq<Address> {
    if x == [] then [] else x[1..]
  }

  /** One turn: the front of each, as far as there is one. */
  lemma TurnsStep(lead: seq<Address>, other: seq<Address>, before: seq<Address>)
    ensures before + ByTurns(lead, other)
         == ((before + Front(lead)) + Front(other)) + ByTurns(Rest(lead), Rest(other))
  {
    if lead == [] || other == [] {
      assert ByTurns(Rest(lead), Rest(other)) == if lead == [] then Rest(other) else Rest(lead);
    }
  }

  /** A first of each, and the rest. */
  lemma FamilyOfPair(a: Address, b: Address, rest: seq<Address>)
    requires a.v4 != b.v4
    ensures Family([a, b] + rest, a.v4) == [a] + Family(rest, a.v4)
    ensures Family([a, b] + rest, b.v4) == [b] + Family(rest, b.v4)
  {
    assert ([a, b] + rest)[1..] == [b] + rest && ([b] + rest)[1..] == rest;
    assert Family([b] + rest, a.v4) == Family(rest, a.v4);
    assert Family([b] + rest, b.v4) == [b] + Family(rest, b.v4);
  }

  /** A list of one family alone. */
  lemma {:induction false} FamilyAlone(x: seq<Address>, v4: bool)
    requires forall i :: 0 <= i < |x| ==> x[i].v4 == v4
    ensures Family(x, v4) == x && Family(x, !v4) == []
  {
    if x != [] {
      FamilyAlone(x[1..], v4);
    }
  }

  /** Each family keeps its own order. */
  lemma {:induction false} TurnsKeepOrder(lead: seq<Address>, other: seq<Address>, v4: bool)
    requires forall i :: 0 <= i < |lead| ==> lead[i].v4 == v4
    requires forall i :: 0 <= i < |other| ==> other[i].v4 != v4
    ensures Family(ByTurns(lead, other), v4) == lead && Family(ByTurns(lead, other), !v4) == other
    decreases |lead| + |other|
  {
    hide Family;
    if lead == [] {
      FamilyAlone(other, !v4);
    } else if other == [] {
      FamilyAlone(lead, v4);
    } else {
      TurnsKeepOrder(lead[1..], other[1..], v4);
      FamilyOfPair(lead[0], other[0], ByTurns(lead[1..], other[1..]));
    }
  }

  /** The two families make up the list. */
  lemma {:induction false} FamiliesMakeUp(x: seq<Address>)
    ensures multiset(x) == multiset(Family(x, true)) + multiset(Family(x, false))
  {
    if x != [] {
      FamiliesMakeUp(x[1..]);
      assert x == [x[0]] + x[1..];
    }
  }

  /** The `k`th of both stand next to each other. */
  predicate Alternates(order: seq<Address>, lead: seq<Address>, other: seq<Address>, k: nat)
    requires k < |lead| && k < |other|
  {
    2 * k + 1 < |order| && order[2 * k] == lead[k] && order[2 * k + 1] == other[k]
  }

  /** They alternate until one of them runs out. */
  lemma {:induction false} TurnsAlternate(lead: seq<Address>, other: seq<Address>, k: nat)
    requires k < |lead| && k < |other|
    ensures Alternates(ByTurns(lead, other), lead, other, k)
    decreases k
  {
    if k > 0 {
      TurnsAlternate(lead[1..], other[1..], k - 1);
    }
  }

  /**
    * The order to try is a permutation of the addresses that keeps each family's own order, begins
    * with that of the first address, and alternates until one of them runs out.
    */
  lemma OrderToTry(addresses: seq<Address>)
    requires addresses != []
    ensures (var v4 := addresses[0].v4;
             var lead, other := Family(addresses, v4), Family(addresses, !v4);
             var order := ByTurns(lead, other);
             && multiset(order) == multiset(addresses)
             && Family(order, true) == Family(addresses, true) && Family(order, false) == Family(addresses, false)
             && (forall k: nat :: k < |lead| && k < |other| ==> Alternates(order, lead, other, k)))
  {
    hide Family, ByTurns, Alternates;
    var v4 := addresses[0].v4;
    var lead, other := Family(addresses, v4), Family(addresses, !v4);
    var order := ByTurns(lead, other);
    TurnsKeepOrder(lead, other, v4);
    FamiliesMakeUp(order);
    FamiliesMakeUp(addresses);
    forall k: nat | k < |lead| && k < |other|
      ensures Alternates(order, lead, other, k)
    {
      TurnsAlternate(lead, other, k);
    }
  }

  // ---------------------------------------------------------------- the race (section 5)

  datatype Error = NotFound | Refused(code: nat)

  /** What a wait ends with: one of the attempts comes to its end, or the delay does. */
  datatype Event =
    | Done(pick: nat, outcome: Result<nat, Error>, after: nat)
    | Slept

  /** An attempt that failed: the address it was for, why, and when. */
  datatype Failure = Failure(index: nat, error: Error, at: nat)

  function Indices(failures: seq<Failure>): seq<nat> {
    seq(|failures|, i requires 0 <= i < |failures| => failures[i].index)
  }

  /** How often address `i` is in flight or has failed. */
  ghost function Times(attempts: seq<nat>, failures: seq<Failure>, i: nat): nat {
    multiset(attempts)[i] + multiset(Indices(failures))[i]
  }

  /** Each of the first `n` addresses is in flight or has failed, just once, and no other. */
  ghost predicate EachOnce(attempts: seq<nat>, failures: seq<Failure>, n: nat) {
    forall i: nat :: Times(attempts, failures, i) == if i < n then 1 else 0
  }

  ghost predicate FailedAt(failures: seq<Failure>, at: nat) {
    exists f :: f in failures && f.at == at
  }

  /** Address `i` starts a delay after the one before it, or as an attempt fails. */
  ghost predicate InTurn(starts: seq<nat>, failures: seq<Failure>, delay: nat, i: nat)
    requires i < |starts|
  {
    && starts[i] <= i * delay
    && (i > 0 ==> starts[i] == starts[i - 1] + delay || FailedAt(failures, starts[i]))
  }

  ghost predicate Paced(starts: seq<nat>, failures: seq<Failure>, delay: nat) {
    forall i: nat :: i < |starts| ==> InTurn(starts, failures, delay, i)
  }

  lemma StartsOne(starts: seq<nat>, failures: seq<Failure>, attempts: seq<nat>, delay: nat, now: nat)
    requires EachOnce(attempts, failures, |starts|) && Paced(starts, failures, delay)
    requires now <= |starts| * delay
    requires starts != [] ==> now == starts[|starts| - 1] + delay || FailedAt(failures, now)
    ensures EachOnce(attempts + [|starts|], failures, |starts| + 1) && Paced(starts + [now], failures, delay)
  {
    var starts' := starts + [now];
    var next: seq<nat> := [|starts|];
    forall i: nat
      ensures Times(attempts + next, failures, i) == if i < |starts| + 1 then 1 else 0
    {
      assert Times(attempts, failures, i) == if i < |starts| then 1 else 0;
      assert multiset(attempts + next)[i] == multiset(attempts)[i] + multiset(next)[i];
    }
    forall i: nat | i < |starts'|
      ensures InTurn(starts', failures, delay, i)
    {
      if i < |starts| {
        assert InTurn(starts, failures, delay, i);
      }
    }
  }

  lemma FailsOne(starts: seq<nat>, failures: seq<Failure>, attempts: seq<nat>, delay: nat, k: nat, f: Failure)
    requires EachOnce(attempts, failures, |starts|) && Paced(starts, failures, delay)
    requires k < |attempts| && f.index == attempts[k]
    ensures EachOnce(attempts[..k] + attempts[k + 1..], failures + [f], |starts|)
    ensures Paced(starts, failures + [f], delay) && FailedAt(failures + [f], f.at)
  {
    assert Indices(failures + [f]) == Indices(failures) + [f.index];
    var one: seq<nat> := [attempts[k]];
    assert attempts == attempts[..k] + one + attempts[k + 1..];
    assert f in failures + [f];
    var fewer, more := attempts[..k] + attempts[k + 1..], failures + [f];
    forall i: nat
      ensures Times(fewer, more, i) == if i < |starts| then 1 else 0
    {
      assert Times(attempts, failures, i) == if i < |starts| then 1 else 0;
      assert multiset(attempts)[i] == multiset(attempts[..k])[i] + multiset(one)[i] + multiset(attempts[k + 1..])[i];
      assert multiset(Indices(failures) + one)[i] == multiset(Indices(failures))[i] + multiset(one)[i];
    }
    forall i: nat | i < |starts|
      ensures InTurn(starts, failures + [f], delay, i)
    {
      assert InTurn(starts, failures, delay, i);
      if FailedAt(failures, starts[i]) {
        var g :| g in failures && g.at == starts[i];
        assert g in failures + [f];
      }
    }
  }

  /** With nothing in flight and no address left, all of them have failed. */
  lemma AllFailed(failures: seq<Failure>, n: nat)
    requires EachOnce([], failures, n)
    ensures multiset(Indices(failures)) == multiset(seq(n, i => i))
  {
    forall i: nat
      ensures multiset(Indices(failures))[i] == multiset(seq(n, i => i))[i]
    {
      assert Times([], failures, i) == if i < n then 1 else 0;
      CountUp(n, i);
    }
  }

  lemma {:induction false} CountUp(n: nat, k: nat)
    ensures multiset(seq(n, i => i))[k] == if k < n then 1 else 0
  {
    if n > 0 {
      CountUp(n - 1, k);
      assert seq(n, i => i) == seq(n - 1, i => i) + [n - 1];
    }
  }

  predicate Won(event: Event) {
    event.Done? && event.outcome.Ok?
  }

  predicate NoneWon(events: seq<Event>) {
    forall i :: 0 <= i < |events| ==> !Won(events[i])
  }

  function AtMost(n: nat, most: nat): nat {
    if n <= most then n else most
  }

  /** How long the waits of `events` take, none longer than the delay. */
  function Clock(events: seq<Event>, delay: nat): nat {
    if events == [] then 0
    else
      var last := events[|events| - 1];
      Clock(events[..|events| - 1], delay) + if last.Done? && last.after <= delay then last.after else delay
  }

  /** The errors of the attempts that `events` end, and when, in order. */
  function Errors(events: seq<Event>, delay: nat): seq<(Error, nat)> {
    if events == [] then []
    else
      var last := events[|events| - 1];
      Errors(events[..|events| - 1], delay)
      + if last.Done? && last.outcome.Err? then [(last.outcome.error, Clock(events, delay))] else []
  }

  function ErrorsOf(failures: seq<Failure>): seq<(Error, nat)> {
    seq(|failures|, i requires 0 <= i < |failures| => (failures[i].error, failures[i].at))
  }

  /** Addresses start as the waits before them are over: one at once, and one after each. */
  ghost predicate StartsOf(starts: seq<nat>, events: seq<Event>, delay: nat) {
    |starts| <= |events| + 1 && forall i :: 0 <= i < |starts| ==> starts[i] == Clock(events[..i], delay)
  }

  /** Within a delay of the last start, the next one is in time. */
  lemma InTime(starts: seq<nat>, failures: seq<Failure>, delay: nat, now: nat)
    requires starts != [] && Paced(starts, failures, delay) && now <= starts[|starts| - 1] + delay
    ensures now <= |starts| * delay
  {
    assert InTurn(starts, failures, delay, |starts| - 1);
    assert (|starts| - 1) * delay + delay == |starts| * delay;
  }

  /** What holds of a race that has begun. */
  ghost predicate Racing(addresses: seq<Address>, delay: nat, waiting: nat, attempts: seq<nat>, now: nat,
                         starts: seq<nat>, failures: seq<Failure>, lastError: Option<Error>)
  {
    && waiting == |starts| <= |addresses|
    && EachOnce(attempts, failures, waiting) && Paced(starts, failures, delay)
    && (lastError == if failures == [] then None else Some(failures[|failures| - 1].error))
    && (waiting < |addresses| ==> attempts != [] && starts != [] && now == starts[|starts| - 1])
  }

  /** The attempts in flight and those that failed. */
  datatype Standing = Standing(attempts: seq<nat>, failures: seq<Failure>)

  /** One more event, at `now`: the attempt it picks fails, if it ends one, and `next` starts. */
  function Moved(was: Standing, event: Event, now: nat, next: seq<nat>): Standing {
    if event.Done? && event.outcome.Err? && was.attempts != [] then
      var k := event.pick % |was.attempts|;
      Standing(was.attempts[..k] + was.attempts[k + 1..] + next,
               was.failures + [Failure(was.attempts[k], event.outcome.error, now)])
    else Standing(was.attempts + next, was.failures)
  }

  /** How a race between `n` addresses stands after `events`, none of which has won it. */
  function StandingOf(events: seq<Event>, n: nat, delay: nat): Standing {
    if events == [] then Standing(if n > 0 then [0] else [], [])
    else
      var k := |events|;
      Moved(StandingOf(events[..k - 1], n, delay), events[k - 1], Clock(events, delay), if k < n then [k] else [])
  }

  /** What the events so far have come to: when each address started, and what failed and when. */
  ghost predicate Told(events: seq<Event>, delay: nat, now: nat, starts: seq<nat>, failures: seq<Failure>) {
    && now == Clock(events, delay) && StartsOf(starts, events, delay)
    && ErrorsOf(failures) == Errors(events, delay)
  }

  /** One more event, which ended an attempt or none. */
  lemma ToldMore(events: seq<Event>, delay: nat, now: nat, starts: seq<nat>, failures: seq<Failure>, event: Event,
                 now': nat, failures': seq<Failure>)
    requires Told(events, delay, now, starts, failures) && !Won(event)
    requires now' == now + if event.Done? && event.after <= delay then event.after else delay
    requires if event.Done? then
               exists f: Failure :: failures' == failures + [f] && f.error == event.outcome.error && f.at == now'
             else failures' == failures
    ensures Told(events + [event], delay, now', starts, failures')
    ensures |starts| == |events| + 1 ==> Told(events + [event], delay, now', starts + [now'], failures')
  {
    var events' := events + [event];
    assert events'[..|events|] == events && events'[..|events'|] == events';
    forall i | 0 <= i <= |events| ensures events'[..i] == events[..i] {
    }
    if event.Done? {
      assert ErrorsOf(failures') == ErrorsOf(failures) + [(event.outcome.error, now')];
    }
  }

  /** The course of a race that has begun, through `events`. */
  ghost predicate Course(addresses: seq<Address>, delay: nat, events: seq<Event>, waiting: nat, attempts: seq<nat>,
                         now: nat, lastError: Option<Error>, starts: seq<nat>, failures: seq<Failure>)
  {
    && Racing(addresses, delay, waiting, attempts, now, starts, failures, lastError)
    && Told(events, delay, now, starts, failures) && NoneWon(events)
    && waiting == AtMost(1 + |events|, |addresses|)
    && Standing(attempts, failures) == StandingOf(events, |addresses|, delay)
  }

  /** One wait, and the start it makes way for. */
  method Wait(addresses: seq<Address>, delay: nat, event: Event, waiting: nat, attempts: seq<nat>, now: nat,
              lastError: Option<Error>, starts: seq<nat>, failures: seq<Failure>, ghost events: seq<Event>)
    returns (waiting': nat, attempts': seq<nat>, now': nat, lastError': Option<Error>, starts': seq<nat>,
             failures': seq<Failure>)
    requires Course(addresses, delay, events, waiting, attempts, now, lastError, starts, failures)
    requires attempts != [] && !Won(event)
    ensures Course(addresses, delay, events + [event], waiting', attempts', now', lastError', starts', failures')
    ensures starts <= starts' && waiting' == AtMost(waiting + 1, |addresses|)
    ensures now' == now + if event.Done? && event.after <= delay then event.after else delay
    ensures failures' == failures + if event.Done? then
                                      [Failure(attempts[event.pick % |attempts|], event.outcome.error, now')]
                                    else []
    ensures Standing(attempts', failures')
         == Moved(Standing(attempts, failures), event, now', if waiting < |addresses| then [waiting] else [])
  {
    hide EachOnce, Paced, Told, StandingOf, NoneWon;
    StandsOn(events, event, |addresses|, delay, now, starts, failures);
    NoneWonMore(events, event);
    waiting', attempts', lastError', starts', failures' := waiting, attempts, lastError, starts, failures;
    if event.Done? {
      var k := event.pick % |attempts|;
      now' := now + if event.after <= delay then event.after else delay;
      lastError' := Some(event.outcome.error);
      var f := Failure(attempts[k], event.outcome.error, now');
      FailsOne(starts, failures, attempts, delay, k, f);
      failures' := failures + [f];
      attempts' := attempts[..k] + attempts[k + 1..];
    } else {
      now' := now + delay;
    }
    ToldMore(events, delay, now, starts, failures, event, now', failures');
    if waiting < |addresses| {
      InTime(starts, failures', delay, now');
      StartsOne(starts, failures', attempts', delay, now');
      attempts' := attempts' + [waiting];
      waiting', starts' := waiting + 1, starts + [now'];
    }
  }

  lemma NoneWonMore(events: seq<Event>, event: Event)
    requires NoneWon(events) && !Won(event)
    ensures NoneWon(events + [event])
  {
  }

  lemma StandsOn(events: seq<Event>, event: Event, n: nat, delay: nat, now: nat, starts: seq<nat>,
                 failures: seq<Failure>)
    requires Told(events, delay, now, starts, failures)
    ensures (var now' := now + if event.Done? && event.after <= delay then event.after else delay;
             var k := |events| + 1;
             StandingOf(events + [event], n, delay)
             == Moved(StandingOf(events, n, delay), event, now', if k < n then [k] else []))
  {
    hide Moved, Errors, StartsOf;
    assert (events + [event])[..|events|] == events;
  }

  /** A race begins with its first address, or is over at once without one. */
  lemma CourseBegins(addresses: seq<Address>, delay: nat)
    ensures if addresses == [] then Course(addresses, delay, [], 0, [], 0, None, [], [])
            else Course(addresses, delay, [], 1, [0], 0, None, [0], [])
  {
    hide EachOnce, Paced;
    assert Indices([]) == [];
    NothingYet(delay);
    if addresses != [] {
      StartsOne([], [], [], delay, 0);
      assert [] + [0] == [0];
    }
  }

  lemma NothingYet(delay: nat)
    ensures EachOnce([], [], 0) && Paced([], [], delay)
  {
    assert Indices([]) == [];
  }

  /** What the course of a race tells at any moment. */
  lemma CourseTells(addresses: seq<Address>, delay: nat, events: seq<Event>, read: nat, waiting: nat,
                    attempts: seq<nat>, now: nat, lastError: Option<Error>, starts: seq<nat>, failures: seq<Failure>)
    requires read <= |events|
    requires Course(addresses, delay, events[..read], waiting, attempts, now, lastError, starts, failures)
    ensures waiting == |starts| <= |addresses| && waiting == AtMost(1 + read, |addresses|)
    ensures EachOnce(attempts, failures, waiting) && Paced(starts, failures, delay)
    ensures StartsOf(starts, events, delay) && ErrorsOf(failures) == Errors(events[..read], delay)
    ensures NoneWon(events[..read]) && Standing(attempts, failures) == StandingOf(events[..read], |addresses|, delay)
    ensures lastError == if failures == [] then None else Some(failures[|failures| - 1].error)
    ensures waiting < |addresses| ==> attempts != []
  {
    hide EachOnce, Paced, StandingOf, NoneWon, Errors, ErrorsOf;
    forall i | 0 <= i <= read ensures events[..read][..i] == events[..i] {
    }
  }

  /**
    * The race, against any events, of which it reads the first `read`. The attempts are for the
    * addresses in order, each once, and each is in flight or has failed; one starts at once and one
    * after each wait, so address i within i delays. What failed, why and when is what the events say.
    * A race is won by the first attempt to connect, and lost only when every address was tried and
    * failed, with the latest failure's error. Without an end among `events` it is still on. Which
    * attempts are in flight and which failed is as the events pick them.
    */
  method Race(addresses: seq<Address>, delay: nat, events: seq<Event>)
    returns (r: Option<Result<nat, Error>>, read: nat, tried: nat, starts: seq<nat>, failures: seq<Failure>,
             attempts: seq<nat>)
    ensures read <= |events| && tried == |starts| <= |addresses|
    ensures EachOnce(attempts, failures, tried) && Paced(starts, failures, delay)
    ensures StartsOf(starts, events, delay)
    ensures r.Some? && r.value.Ok? ==>
              && attempts != [] && read > 0 && tried == AtMost(read, |addresses|)
              && Won(events[read - 1]) && events[read - 1].outcome == r.value && NoneWon(events[..read - 1])
              && ErrorsOf(failures) == Errors(events[..read - 1], delay)
              && Standing(attempts, failures) == StandingOf(events[..read - 1], |addresses|, delay)
    ensures !(r.Some? && r.value.Ok?) ==>
              && NoneWon(events[..read]) && tried == AtMost(1 + read, |addresses|)
              && ErrorsOf(failures) == Errors(events[..read], delay)
              && Standing(attempts, failures) == StandingOf(events[..read], |addresses|, delay)
    ensures r.Some? && r.value.Err? ==>
              && tried == |addresses| && attempts == []
              && multiset(Indices(failures)) == multiset(seq(tried, i => i))
              && r.value.error == if failures == [] then NotFound else failures[|failures| - 1].error
    ensures r.None? ==> attempts != [] && read == |events|
  {
    hide EachOnce, Paced, StartsOf, Errors, ErrorsOf, Indices, Moved, StandingOf, NoneWon, Course, Clock;
    CourseBegins(addresses, delay);
    var waiting: nat, inFlight: seq<nat>, lastError: Option<Error>, now: nat := 0, [], None, 0;
    starts, failures, read := [], [], 0;
    ghost var begun := addresses == [];
    assert events[..0] == [];
    while true
      invariant read <= |events|
      invariant begun ==>
                  Course(addresses, delay, events[..read], waiting, inFlight, now, lastError, starts, failures)
      invariant !begun ==>
                  && addresses != [] && read == waiting == now == 0 && lastError == None
                  && inFlight == [] && starts == [] && failures == []
      decreases |events| - read
    {
      if begun {
        CourseTells(addresses, delay, events, read, waiting, inFlight, now, lastError, starts, failures);
      }
      if inFlight == [] {
        if waiting < |addresses| {
          inFlight := inFlight + [waiting];
          waiting, starts := waiting + 1, starts + [now];
          begun := true;
          assert inFlight == [0] && starts == [0];
          CourseTells(addresses, delay, events, read, waiting, inFlight, now, lastError, starts, failures);
        } else {
          AllFailed(failures, waiting);
          r := Some(Err(if lastError.Some? then lastError.value else NotFound));
          break;
        }
      }
      if read == |events| {
        r := None;
        break;
      }
      var event := events[read];
      assert events[..read + 1] == events[..read] + [event];
      if event.Done? && event.outcome.Ok? {
        r := Some(event.outcome);
        read := read + 1;
        break;
      }
      waiting, inFlight, now, lastError, starts, failures :=
        Wait(addresses, delay, event, waiting, inFlight, now, lastError, starts, failures, events[..read]);
      read := read + 1;
    }
    tried, attempts := waiting, inFlight;
  }
}
