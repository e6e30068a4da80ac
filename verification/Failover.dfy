/**
  * Failing over between endpoints: the loop that keeps one WireGuard tunnel up, and the one that
  * keeps a tunnel inside a tunnel up. What a scan finds, and whether an endpoint answers, are inputs.
  */
module Failover {
  import opened Bytes

  datatype Endpoint = Endpoint(ip: nat, port: nat)

  const MAX_CONSECUTIVE_FAILS: nat := 2

  // ---------------------------------------------------------------- one tunnel

  /** What happened: a tunnel ran to an endpoint, or one was excluded for a while. */
  datatype Entry = Ran(peer: Endpoint, at: nat) | Excluded(peer: Endpoint, until: nat)

  /** One turn of the loop: when it is, what answers, and what a scan finds with some left out. */
  datatype Round = Round(now: nat, retryAnswers: bool, forcedAnswers: bool, hunt: set<Endpoint> -> Option<Endpoint>)

  /** A scan that does not find what it is told to leave out. */
  ghost predicate Honours(hunt: set<Endpoint> -> Option<Endpoint>) {
    forall excluded :: hunt(excluded).Some? ==> hunt(excluded).value !in excluded
  }

  ghost predicate Plausible(rounds: seq<Round>) {
    && (forall i :: 0 <= i < |rounds| ==> Honours(rounds[i].hunt))
    && (forall i, j :: 0 <= i < j < |rounds| ==> rounds[i].now <= rounds[j].now)
  }

  /** A round that has an endpoint to offer, whatever is left out. */
  ghost predicate Offers(round: Round, forced: Option<Endpoint>) {
    if forced.Some? then round.forcedAnswers else forall excluded :: round.hunt(excluded).Some?
  }

  ghost function RunCount(log: seq<Entry>): nat {
    if log == [] then 0
    else RunCount(log[..|log| - 1]) + if log[|log| - 1].Ran? then 1 else 0
  }

  lemma RunCountMore(log: seq<Entry>, e: Entry)
    ensures RunCount(log + [e]) == RunCount(log) + if e.Ran? then 1 else 0
  {
    assert (log + [e])[..|log|] == log;
  }

  /** Two entries in a row, the second at `i`, are runs of one endpoint. */
  predicate Twice(log: seq<Entry>, i: int) {
    0 < i < |log| && log[i - 1].Ran? && log[i].Ran? && log[i - 1].peer == log[i].peer
  }

  /** How many times in a row the endpoint that ran last has run. */
  ghost function Streak(log: seq<Entry>): nat {
    if log == [] || log[|log| - 1].Excluded? then 0
    else if Twice(log, |log| - 1) then 1 + Streak(log[..|log| - 1])
    else 1
  }

  // ---------------------------------------------------------------- what the log should be

  /** The endpoint that ran last, unless it was excluded since. */
  function LastGood(log: seq<Entry>): Option<Endpoint> {
    if log != [] && log[|log| - 1].Ran? then Some(log[|log| - 1].peer) else None
  }

  /** The endpoints whose time is not over. */
  function Cooling(log: seq<Entry>, now: nat): set<Endpoint> {
    set e | e in log && e.Excluded? && e.until > now :: e.peer
  }

  /** Those, and the one that is to be excluded now. */
  ghost function Barred(log: seq<Entry>, now: nat): set<Endpoint> {
    Cooling(log, now) + if Streak(log) >= MAX_CONSECUTIVE_FAILS then {log[|log| - 1].peer} else {}
  }

  /** The endpoint that ran too often in a row is excluded. */
  ghost function Aside(log: seq<Entry>, cooldown: nat, now: nat): seq<Entry> {
    if Streak(log) >= MAX_CONSECUTIVE_FAILS then log + [Excluded(log[|log| - 1].peer, now + cooldown)] else log
  }

  /** The quick one, the last one if it answers, the forced one if it does, or what a scan finds. */
  function Chosen(round: Round, forced: Option<Endpoint>, quick: Option<Endpoint>, last: Option<Endpoint>,
                  barred: set<Endpoint>): Option<Endpoint>
  {
    if quick.Some? then quick
    else if last.Some? && round.retryAnswers then last
    else if forced.Some? then (if round.forcedAnswers then forced else None)
    else round.hunt(barred)
  }

  ghost function Later(round: Round, forced: Option<Endpoint>, quick: Option<Endpoint>, cooldown: nat,
                       log: seq<Entry>): seq<Entry>
  {
    var aside := Aside(log, cooldown, round.now);
    var peer := Chosen(round, forced, quick, LastGood(aside), Barred(log, round.now));
    if peer.Some? then aside + [Ran(peer.value, round.now)] else aside
  }

  /** The log of `rounds`, in which each turn goes by nothing but the log before it. */
  ghost function LogOf(rounds: seq<Round>, forced: Option<Endpoint>, quick: Option<Endpoint>, cooldown: nat)
    : seq<Entry>
  {
    if rounds == [] then []
    else
      var n := |rounds| - 1;
      Later(rounds[n], forced, if n == 0 then quick else None, cooldown, LogOf(rounds[..n], forced, quick, cooldown))
  }

  // ---------------------------------------------------------------- what holds of it

  /** No endpoint ever runs more than twice in a row. */
  ghost predicate AtMostTwice(log: seq<Entry>) {
    forall k :: 0 <= k <= |log| ==> Streak(log[..k]) <= MAX_CONSECUTIVE_FAILS
  }

  /** An endpoint that ran twice in a row does not run again before its cooldown is over. */
  ghost predicate CoolsDown(log: seq<Entry>, cooldown: nat) {
    forall i, j :: 0 <= i < j < |log| && Twice(log, i) && log[j].Ran? && log[j].peer == log[i].peer ==>
      log[i].at + cooldown <= log[j].at
  }

  /** Entry `k` excludes the endpoint that ran just before it, for at least the cooldown. */
  predicate ExcludesLast(log: seq<Entry>, k: nat, cooldown: nat)
    requires k < |log|
  {
    && log[k].Excluded? && k > 0 && log[k - 1].Ran? && log[k].peer == log[k - 1].peer
    && log[k].until >= log[k - 1].at + cooldown
  }

  ghost predicate InPlace(log: seq<Entry>, k: nat, cooldown: nat)
    requires k < |log|
  {
    if Streak(log[..k]) >= MAX_CONSECUTIVE_FAILS then ExcludesLast(log, k, cooldown) else log[k].Ran?
  }

  /** An exclusion stands behind two runs in a row of its endpoint, and nowhere else. */
  ghost predicate ExcludesInTime(log: seq<Entry>, cooldown: nat) {
    forall k :: 0 <= k < |log| ==> InPlace(log, k, cooldown)
  }

  /** An endpoint that was excluded does not run again before its time. */
  ghost predicate Obeyed(log: seq<Entry>) {
    forall i, j :: 0 <= i < j < |log| && log[i].Excluded? && log[j].Ran? && log[i].peer == log[j].peer ==>
      log[i].until <= log[j].at
  }

  /** Every entry is about the endpoint that was forced. */
  ghost predicate OnlyForced(log: seq<Entry>, forced: Endpoint) {
    forall i :: 0 <= i < |log| ==> log[i].peer == forced
  }

  ghost predicate Proper(log: seq<Entry>, forced: Option<Endpoint>, cooldown: nat, now: nat) {
    && AtMostTwice(log) && ExcludesInTime(log, cooldown)
    && (forall i :: 0 <= i < |log| && log[i].Ran? ==> log[i].at <= now)
    && (forced.None? ==> Obeyed(log))
    && (forced.Some? ==> OnlyForced(log, forced.value))
  }

  lemma StreakMore(log: seq<Entry>, e: Entry)
    ensures Streak(log + [e]) == if e.Excluded? then 0 else if LastGood(log) == Some(e.peer) then 1 + Streak(log) else 1
    ensures LastGood(log).None? <==> Streak(log) == 0
  {
    assert (log + [e])[..|log|] == log;
  }

  lemma TimesMore(log: seq<Entry>, e: Entry, cooldown: nat)
    requires AtMostTwice(log) && ExcludesInTime(log, cooldown) && Streak(log + [e]) <= MAX_CONSECUTIVE_FAILS
    requires if Streak(log) >= MAX_CONSECUTIVE_FAILS then ExcludesLast(log + [e], |log|, cooldown) else e.Ran?
    ensures AtMostTwice(log + [e]) && ExcludesInTime(log + [e], cooldown)
  {
    hide Streak, ExcludesLast;
    var log' := log + [e];
    forall k | 0 <= k <= |log'| ensures Streak(log'[..k]) <= MAX_CONSECUTIVE_FAILS {
      assert log'[..k] == if k <= |log| then log[..k] else log';
    }
    forall k | 0 <= k < |log'| ensures InPlace(log', k, cooldown) {
      if k < |log| {
        assert InPlace(log, k, cooldown);
        PlaceStays(log, e, k, cooldown);
      } else {
        assert log'[..k] == log;
      }
    }
  }

  lemma PlaceStays(log: seq<Entry>, e: Entry, k: nat, cooldown: nat)
    requires k < |log| && InPlace(log, k, cooldown)
    ensures InPlace(log + [e], k, cooldown)
  {
    hide Streak;
    assert (log + [e])[..k] == log[..k];
  }

  lemma ProperAside(log: seq<Entry>, forced: Option<Endpoint>, cooldown: nat, before: nat, now: nat)
    requires Proper(log, forced, cooldown, before) && before <= now
    ensures Proper(Aside(log, cooldown, now), forced, cooldown, now)
    ensures Streak(Aside(log, cooldown, now)) < MAX_CONSECUTIVE_FAILS
  {
    hide AtMostTwice, ExcludesInTime, Streak;
    if Streak(log) >= MAX_CONSECUTIVE_FAILS {
      StreakOfRun(log);
      var e := Excluded(log[|log| - 1].peer, now + cooldown);
      StreakMore(log, e);
      TimesMore(log, e, cooldown);
    }
  }

  lemma StreakOfRun(log: seq<Entry>)
    requires Streak(log) > 0
    ensures log != [] && log[|log| - 1].Ran?
  {
  }

  lemma ProperRan(log: seq<Entry>, forced: Option<Endpoint>, cooldown: nat, now: nat, peer: Endpoint)
    requires Proper(log, forced, cooldown, now) && Streak(log) < MAX_CONSECUTIVE_FAILS
    requires if forced.Some? then peer == forced.value else peer !in Cooling(log, now)
    ensures Proper(log + [Ran(peer, now)], forced, cooldown, now)
  {
    hide AtMostTwice, ExcludesInTime, Streak;
    var log' := log + [Ran(peer, now)];
    StreakMore(log, Ran(peer, now));
    TimesMore(log, Ran(peer, now), cooldown);
    if forced.None? {
      forall i | 0 <= i < |log| && log[i].Excluded? && log[i].peer == peer
        ensures log[i].until <= now
      {
        assert log[i] in log;
      }
    }
  }

  /** Neither what is quick, nor what ran last, nor what a scan finds, is cooling down. */
  lemma NotCooling(round: Round, forced: Option<Endpoint>, quick: Option<Endpoint>, cooldown: nat, log: seq<Entry>,
                   barred: set<Endpoint>)
    requires Proper(log, forced, cooldown, round.now) && Honours(round.hunt) && Cooling(log, round.now) <= barred
    requires quick.Some? ==> forced.None? && log == []
    requires Chosen(round, forced, quick, LastGood(log), barred).Some?
    ensures (var peer := Chosen(round, forced, quick, LastGood(log), barred).value;
             if forced.Some? then peer == forced.value else peer !in Cooling(log, round.now))
  {
    hide AtMostTwice, ExcludesInTime;
    var peer := Chosen(round, forced, quick, LastGood(log), barred).value;
    if forced.None? && quick.None? && LastGood(log) == Some(peer) {
      assert log[|log| - 1] == Ran(peer, log[|log| - 1].at);
    }
  }

  lemma ProperLater(round: Round, forced: Option<Endpoint>, quick: Option<Endpoint>, cooldown: nat, log: seq<Entry>,
                    before: nat)
    requires Proper(log, forced, cooldown, before) && before <= round.now && Honours(round.hunt)
    requires quick.Some? ==> forced.None? && log == []
    ensures (var log' := Later(round, forced, quick, cooldown, log);
             && Proper(log', forced, cooldown, round.now)
             && RunCount(log) <= RunCount(log') <= RunCount(log) + 1
             && (Offers(round, forced) ==> RunCount(log') == RunCount(log) + 1))
  {
    hide Proper, Honours, RunCount, Cooling, Streak;
    ProperAside(log, forced, cooldown, before, round.now);
    var aside := Aside(log, cooldown, round.now);
    if Streak(log) >= MAX_CONSECUTIVE_FAILS {
      StreakOfRun(log);
      RunCountMore(log, Excluded(log[|log| - 1].peer, round.now + cooldown));
    }
    CoolingAside(log, cooldown, round.now);
    var peer := Chosen(round, forced, quick, LastGood(aside), Barred(log, round.now));
    if peer.Some? {
      NotCooling(round, forced, quick, cooldown, aside, Barred(log, round.now));
      ProperRan(aside, forced, cooldown, round.now, peer.value);
      RunCountMore(aside, Ran(peer.value, round.now));
    }
  }

  lemma CoolingAside(log: seq<Entry>, cooldown: nat, now: nat)
    ensures Cooling(Aside(log, cooldown, now), now) <= Barred(log, now)
  {
  }

  ghost function LastNow(rounds: seq<Round>): nat {
    if rounds == [] then 0 else rounds[|rounds| - 1].now
  }

  lemma ProperEmpty(forced: Option<Endpoint>, cooldown: nat)
    ensures Proper([], forced, cooldown, 0) && RunCount([]) == 0
  {
  }

  lemma {:induction false} ProperLog(rounds: seq<Round>, forced: Option<Endpoint>, quick: Option<Endpoint>,
                                     cooldown: nat)
    requires Plausible(rounds) && (forced.Some? ==> quick.None?)
    ensures (var log := LogOf(rounds, forced, quick, cooldown);
             && Proper(log, forced, cooldown, LastNow(rounds))
             && RunCount(log) <= |rounds|
             && ((forall i :: 0 <= i < |rounds| ==> Offers(rounds[i], forced)) ==> RunCount(log) == |rounds|))
    decreases |rounds|
  {
    hide Honours, Offers, Later, Proper, RunCount;
    if rounds == [] {
      ProperEmpty(forced, cooldown);
    } else {
      var n := |rounds| - 1;
      var last, rest := rounds[n], rounds[..n];
      assert last == rounds[n];
      ProperLog(rest, forced, quick, cooldown);
      ProperLater(last, forced, if n == 0 then quick else None, cooldown, LogOf(rest, forced, quick, cooldown),
                  LastNow(rest));
    }
  }

  /** Two runs in a row are followed by an exclusion, which is obeyed. */
  lemma ProperCools(log: seq<Entry>, cooldown: nat)
    requires ExcludesInTime(log, cooldown) && Obeyed(log)
    ensures CoolsDown(log, cooldown)
  {
    forall i, j | 0 <= i < j < |log| && Twice(log, i) && log[j].Ran? && log[j].peer == log[i].peer
      ensures log[i].at + cooldown <= log[j].at
    {
      TwiceIsStreak(log, i);
      assert InPlace(log, i + 1, cooldown);
      assert ExcludesLast(log, i + 1, cooldown);
    }
  }

  lemma TwiceIsStreak(log: seq<Entry>, i: int)
    requires Twice(log, i)
    ensures Streak(log[..i + 1]) >= MAX_CONSECUTIVE_FAILS
  {
    var upTo := log[..i + 1];
    assert Twice(upTo, i) && upTo[..i][i - 1] == log[i - 1];
  }

  // ---------------------------------------------------------------- the loop itself

  /** The cooldowns noted are those of the log that are still on. */
  ghost predicate Noted(log: seq<Entry>, cooldowns: map<Endpoint, nat>, cooldown: nat, now: nat) {
    && (forall p :: p in cooldowns ==> Excluded(p, cooldowns[p]) in log)
    && (forall e :: e in log && e.Excluded? ==>
          && e.until <= now + cooldown
          && (e.until > now ==> e.peer in cooldowns && cooldowns[e.peer] >= e.until))
  }

  /** What the loop knows is what the log tells. */
  ghost predicate Tracks(log: seq<Entry>, lastGood: Option<Endpoint>, fails: nat, cooldowns: map<Endpoint, nat>,
                         cooldown: nat, now: nat)
  {
    lastGood == LastGood(log) && fails == Streak(log) && Noted(log, cooldowns, cooldown, now)
  }

  /** Dropping cooldowns that are over leaves those that are on. */
  lemma NotedLater(log: seq<Entry>, cooldowns: map<Endpoint, nat>, cooldown: nat, before: nat, now: nat,
                   kept: map<Endpoint, nat>)
    requires Noted(log, cooldowns, cooldown, before) && before <= now
    requires kept == map p | p in cooldowns && cooldowns[p] > now :: cooldowns[p]
    ensures Noted(log, kept, cooldown, now) && kept.Keys == Cooling(log, now)
  {
    forall p | p in kept
      ensures p in Cooling(log, now)
    {
      assert Excluded(p, cooldowns[p]) in log;
    }
  }

  /** The endpoint that failed too often is set aside. */
  method SetAside(log: seq<Entry>, lastGood: Option<Endpoint>, fails: nat, cooldowns: map<Endpoint, nat>, now: nat,
                  cooldown: nat)
    returns (log': seq<Entry>, lastGood': Option<Endpoint>, fails': nat, cooldowns': map<Endpoint, nat>)
    requires Tracks(log, lastGood, fails, cooldowns, cooldown, now) && cooldowns.Keys == Cooling(log, now)
    ensures log' == Aside(log, cooldown, now) && cooldowns'.Keys == Barred(log, now)
    ensures Tracks(log', lastGood', fails', cooldowns', cooldown, now)
  {
    hide Streak;
    log', lastGood', fails', cooldowns' := log, lastGood, fails, cooldowns;
    StreakMore(log, Excluded(Endpoint(0, 0), 0));
    if fails >= MAX_CONSECUTIVE_FAILS {
      if lastGood.Some? {
        var peer := lastGood.value;
        StreakMore(log, Excluded(peer, now + cooldown));
        lastGood' := None;
        cooldowns' := cooldowns[peer := now + cooldown];
        log' := log + [Excluded(peer, now + cooldown)];
      }
      fails' := 0;
    }
  }

  /** One turn: set aside, choose, run. */
  method Turn(round: Round, forced: Option<Endpoint>, quick: Option<Endpoint>, cooldown: nat, log: seq<Entry>,
              lastGood: Option<Endpoint>, fails: nat, cooldowns: map<Endpoint, nat>, ghost before: nat)
    returns (log': seq<Entry>, lastGood': Option<Endpoint>, fails': nat, cooldowns': map<Endpoint, nat>)
    requires Tracks(log, lastGood, fails, cooldowns, cooldown, before) && before <= round.now
    ensures log' == Later(round, forced, quick, cooldown, log)
    ensures Tracks(log', lastGood', fails', cooldowns', cooldown, round.now)
  {
    hide Streak, Cooling, Barred, Aside;
    var now := round.now;
    var kept := map p | p in cooldowns && cooldowns[p] > now :: cooldowns[p];
    NotedLater(log, cooldowns, cooldown, before, now, kept);
    log', lastGood', fails', cooldowns' := SetAside(log, lastGood, fails, kept, now, cooldown);
    var peer := Chosen(round, forced, quick, lastGood', cooldowns'.Keys);
    if peer.Some? {
      StreakMore(log', Ran(peer.value, now));
      if lastGood' != peer {
        fails' := 0;
      }
      lastGood' := peer;
      log' := log' + [Ran(peer.value, now)];
      fails' := fails' + 1;
    }
  }

  /**
    * The loop, over any rounds: what it keeps in its variables comes to the log that each turn makes
    * of the log before it. No endpoint runs more than twice in a row without being excluded; one that
    * did, unless it was forced, does not run again before its cooldown is over; and with a forced
    * endpoint no other ever runs. A round that has an endpoint to offer is never idle.
    */
  method RunWireguard(forced: Option<Endpoint>, quick0: Option<Endpoint>, cooldown: nat, rounds: seq<Round>)
    returns (log: seq<Entry>)
    requires Plausible(rounds) && (forced.Some? ==> quick0.None?)
    ensures log == LogOf(rounds, forced, quick0, cooldown)
    ensures AtMostTwice(log) && ExcludesInTime(log, cooldown)
    ensures forced.None? ==> CoolsDown(log, cooldown) && Obeyed(log)
    ensures forced.Some? ==> OnlyForced(log, forced.value)
    ensures RunCount(log) <= |rounds|
    ensures (forall i :: 0 <= i < |rounds| ==> Offers(rounds[i], forced)) ==> RunCount(log) == |rounds|
  {
    hide RunCount, AtMostTwice, Later, Offers, Honours;
    var quick, lastGood: Option<Endpoint>, fails: nat := quick0, None, 0;
    var cooldowns: map<Endpoint, nat> := map[];
    ghost var before: nat := 0;
    log := [];
    assert rounds[..0] == [];
    for i := 0 to |rounds|
      invariant log == LogOf(rounds[..i], forced, quick0, cooldown)
      invariant Tracks(log, lastGood, fails, cooldowns, cooldown, before)
      invariant i < |rounds| ==> before <= rounds[i].now
      invariant quick == if i == 0 then quick0 else None
    {
      hide Tracks;
      assert rounds[..i + 1][..i] == rounds[..i];
      log, lastGood, fails, cooldowns :=
        Turn(rounds[i], forced, quick, cooldown, log, lastGood, fails, cooldowns, before);
      quick, before := None, rounds[i].now;
    }
    assert rounds[..|rounds|] == rounds;
    ProperLog(rounds, forced, quick0, cooldown);
    if forced.None? {
      ProperCools(log, cooldown);
    }
  }

  // ---------------------------------------------------------------- a tunnel inside a tunnel

  datatype Hops = Hops(outer: Option<Endpoint>, inner: Option<Endpoint>)

  /** What is left of a scan: the addresses not to be avoided, `want` at most. */
  function Picked(found: seq<Endpoint>, avoid: set<nat>, want: nat): (r: seq<Endpoint>)
    ensures |r| <= want && forall i :: 0 <= i < |r| ==> r[i].ip !in avoid && r[i] in found
  {
    if found == [] || want == 0 then []
    else if found[0].ip in avoid then Picked(found[1..], avoid, want)
    else [found[0]] + Picked(found[1..], avoid, want - 1)
  }

  method PickPeers(found: seq<Endpoint>, avoid: set<nat>, want: nat) returns (r: seq<Endpoint>)
    ensures r == Picked(found, avoid, want)
  {
    hide Picked;
    r := [];
    assert found[0..] == found;
    for i := 0 to |found|
      invariant |r| <= want && Picked(found, avoid, want) == r + Picked(found[i..], avoid, want - |r|)
    {
      PickedStep(found, i, avoid, want - |r|);
      if |r| == want { return; }
      if found[i].ip !in avoid {
        r := r + [found[i]];
      }
    }
    PickedNone(found[|found|..], avoid, want - |r|);
  }

  lemma PickedStep(found: seq<Endpoint>, i: nat, avoid: set<nat>, want: nat)
    requires i < |found|
    ensures Picked(found[i..], avoid, want)
         == if want == 0 then []
            else if found[i].ip in avoid then Picked(found[i + 1..], avoid, want)
            else [found[i]] + Picked(found[i + 1..], avoid, want - 1)
  {
    assert found[i..][1..] == found[i + 1..];
  }

  lemma PickedNone(found: seq<Endpoint>, avoid: set<nat>, want: nat)
    requires found == []
    ensures Picked(found, avoid, want) == []
  {
  }

  /** Where the first endpoint from `i` on stands whose network is not the first one's. */
  function FirstOther(found: seq<Endpoint>, network: nat -> Option<nat>, i: nat): (k: nat)
    requires i <= |found| && found != []
    ensures i <= k <= |found|
    ensures forall j :: i <= j < k ==> network(found[j].ip) == network(found[0].ip)
    ensures k < |found| ==> network(found[k].ip) != network(found[0].ip)
    decreases |found| - i
  {
    if i == |found| || network(found[i].ip) != network(found[0].ip) then i else FirstOther(found, network, i + 1)
  }

  /** The first endpoint of another network takes the second place. */
  function Spread(found: seq<Endpoint>, network: nat -> Option<nat>): seq<Endpoint> {
    if |found| < 2 then found
    else
      var k := FirstOther(found, network, 0);
      if k < |found| then found[1 := found[k]][k := found[1]] else found
  }

  /** The networks of the first two are different, if two of them are. */
  ghost predicate SpreadOut(was: seq<Endpoint>, now: seq<Endpoint>, network: nat -> Option<nat>) {
    && |now| == |was| && multiset(now) == multiset(was)
    && (|was| > 0 ==> now[0] == was[0])
    && (|was| >= 2 && (exists k :: 0 <= k < |was| && network(was[k].ip) != network(was[0].ip)) ==>
          network(now[1].ip) != network(now[0].ip))
    && (|was| >= 2 && (forall k :: 0 <= k < |was| ==> network(was[k].ip) == network(was[0].ip)) ==> now == was)
  }

  lemma SpreadIsOut(found: seq<Endpoint>, network: nat -> Option<nat>)
    ensures SpreadOut(found, Spread(found, network), network)
  {
    if |found| >= 2 {
      var k := FirstOther(found, network, 0);
      if k < |found| {
        Swapped(found, Spread(found, network), 1, k);
      }
    }
  }

  method SpreadHops(found: array<Endpoint>, network: nat -> Option<nat>)
    modifies found
    ensures found[..] == Spread(old(found[..]), network) && SpreadOut(old(found[..]), found[..], network)
  {
    SpreadIsOut(found[..], network);
    hide SpreadOut;
    if found.Length < 2 { return; }
    var first := found[0];
    var other := 0;
    while other < found.Length && network(found[other].ip) == network(first.ip)
      invariant other <= found.Length && found[..] == old(found[..])
      invariant FirstOther(found[..], network, 0) == FirstOther(found[..], network, other)
    {
      other := other + 1;
    }
    if other < found.Length {
      assert other >= 1;
      found[1], found[other] := found[other], found[1];
    }
  }

  lemma Swapped(x: seq<Endpoint>, y: seq<Endpoint>, i: nat, j: nat)
    requires i < |x| && j < |x| && y == x[i := x[j]][j := x[i]]
    ensures multiset(x) == multiset(y)
  {
  }

  /** What happened: a scan and what it found, or a run over a pair of hops, which came up or not. */
  datatype Event = Scanned(found: Option<seq<Endpoint>>) | Tunnel(outer: Endpoint, inner: Endpoint, up: bool)

  /** One turn of the loop: what a scan would find, if anything, and whether its hops are spread. */
  datatype Scan = Scan(found: Option<seq<Endpoint>>, spread: bool)

  predicate Both(hops: Hops) {
    hops.outer.Some? && hops.inner.Some?
  }

  /** Pinned hops that are both given have to be on different addresses. */
  predicate Separate(hops: Hops) {
    Both(hops) ==> hops.outer.value.ip != hops.inner.value.ip
  }

  // ---------------------------------------------------------------- what its log should be

  /** How many runs there were since the last scan. */
  ghost function RunsSinceScan(log: seq<Event>): nat {
    if log == [] || log[|log| - 1].Scanned? then 0 else 1 + RunsSinceScan(log[..|log| - 1])
  }

  function Missing(hops: Hops): nat {
    (if hops.outer.None? then 1 else 0) + (if hops.inner.None? then 1 else 0)
  }

  function Addresses(hops: Hops): set<nat> {
    (if hops.outer.Some? then {hops.outer.value.ip} else {}) + (if hops.inner.Some? then {hops.inner.value.ip} else {})
  }

  /** The hops that are known, and the first of `found` for those that are not. */
  function Joined(hops: Hops, found: seq<Endpoint>): Option<Hops> {
    if |found| < Missing(hops) then None
    else if hops.outer.None? && hops.inner.None? then Some(Hops(Some(found[0]), Some(found[1])))
    else if hops.outer.None? then Some(Hops(Some(found[0]), hops.inner))
    else if hops.inner.None? then Some(Hops(hops.outer, Some(found[0])))
    else Some(hops)
  }

  /** What a scan makes of the hops that are known, if it finds enough. */
  function Completed(scan: Scan, hops: Hops, network: nat -> Option<nat>): Option<Hops> {
    if scan.found.None? then None
    else
      var picked := Picked(scan.found.value, Addresses(hops), Missing(hops));
      Joined(hops, if scan.spread then Spread(picked, network) else picked)
  }

  /** The hops of the last run, unless that was the last they get. */
  ghost function Known(log: seq<Event>, pinned: Hops): Hops {
    if log != [] && log[|log| - 1].Tunnel? && RunsSinceScan(log) < MAX_CONSECUTIVE_FAILS then
      Hops(Some(log[|log| - 1].outer), Some(log[|log| - 1].inner))
    else pinned
  }

  /** A run, which comes up unless both hops are on one address. */
  function RunOver(hops: Hops): Event
    requires Both(hops)
  {
    Tunnel(hops.outer.value, hops.inner.value, hops.outer.value.ip != hops.inner.value.ip)
  }

  ghost function GoolLater(scan: Scan, pinned: Hops, network: nat -> Option<nat>, log: seq<Event>): seq<Event> {
    var known := Known(log, pinned);
    if Both(known) then log + [RunOver(known)]
    else
      var found := Completed(scan, known, network);
      log + [Scanned(scan.found)] + if found.Some? && Both(found.value) then [RunOver(found.value)] else []
  }

  /** The log of `rounds`, in which each turn goes by nothing but the log before it. */
  ghost function GoolLog(rounds: seq<Scan>, pinned: Hops, network: nat -> Option<nat>): seq<Event> {
    if rounds == [] then []
    else
      var n := |rounds| - 1;
      GoolLater(rounds[n], pinned, network, GoolLog(rounds[..n], pinned, network))
  }

  // ---------------------------------------------------------------- what holds of it

  ghost predicate RescansInTime(log: seq<Event>) {
    forall k :: 0 <= k <= |log| ==> RunsSinceScan(log[..k]) <= MAX_CONSECUTIVE_FAILS
  }

  /** A pinned hop is never replaced, and no tunnel comes up with both hops on one address. */
  ghost predicate KeepsPins(e: Event, pinned: Hops) {
    e.Tunnel? ==>
      && (pinned.outer.Some? ==> e.outer == pinned.outer.value)
      && (pinned.inner.Some? ==> e.inner == pinned.inner.value)
      && (e.up <==> e.outer.ip != e.inner.ip)
      && (pinned.outer.Some? || pinned.inner.Some? ==> e.up)
  }

  /** What the last scan found. */
  ghost function LastScan(log: seq<Event>): seq<Endpoint> {
    if log == [] then []
    else if log[|log| - 1].Scanned? then (if log[|log| - 1].found.Some? then log[|log| - 1].found.value else [])
    else LastScan(log[..|log| - 1])
  }

  /** A hop of the run `e`, behind `log`, that is not pinned was found by the last scan. */
  ghost predicate HopsFound(log: seq<Event>, e: Event, pinned: Hops) {
    e.Tunnel? ==>
      && (pinned.outer.None? ==> e.outer in LastScan(log))
      && (pinned.inner.None? ==> e.inner in LastScan(log))
  }

  ghost predicate FromScans(log: seq<Event>, pinned: Hops) {
    forall i :: 0 <= i < |log| ==> KeepsPins(log[i], pinned) && HopsFound(log[..i], log[i], pinned)
  }

  lemma FromScansMore(log: seq<Event>, e: Event, pinned: Hops)
    requires FromScans(log, pinned) && KeepsPins(e, pinned) && HopsFound(log, e, pinned)
    ensures FromScans(log + [e], pinned)
  {
    hide KeepsPins, HopsFound;
    var log' := log + [e];
    forall i | 0 <= i < |log'| ensures KeepsPins(log'[i], pinned) && HopsFound(log'[..i], log'[i], pinned) {
      assert log'[..i] == log[..i];
      assert log[..|log|] == log;
    }
  }

  lemma RescansMore(log: seq<Event>, e: Event)
    requires RescansInTime(log) && RunsSinceScan(log + [e]) <= MAX_CONSECUTIVE_FAILS
    ensures RescansInTime(log + [e])
  {
    var log' := log + [e];
    forall k | 0 <= k <= |log'| ensures RunsSinceScan(log'[..k]) <= MAX_CONSECUTIVE_FAILS {
      assert log'[..k] == if k <= |log| then log[..k] else log';
    }
  }

  /** A scan that finds enough, whichever address is left out. */
  ghost predicate Plenty(scan: Scan) {
    scan.found.Some? && forall avoid: set<nat>, want: nat :: |avoid| + want == 2 ==>
      |Picked(scan.found.value, avoid, want)| == want
  }

  ghost function TunnelCount(log: seq<Event>): nat {
    if log == [] then 0
    else TunnelCount(log[..|log| - 1]) + if log[|log| - 1].Tunnel? then 1 else 0
  }

  lemma EventMore(log: seq<Event>, e: Event)
    ensures TunnelCount(log + [e]) == TunnelCount(log) + if e.Tunnel? then 1 else 0
    ensures RunsSinceScan(log + [e]) == if e.Scanned? then 0 else 1 + RunsSinceScan(log)
    ensures e.Tunnel? ==> LastScan(log + [e]) == LastScan(log)
    ensures e.Scanned? && e.found.Some? ==> LastScan(log + [e]) == e.found.value
  {
    assert (log + [e])[..|log|] == log;
  }

  /** A scan adds what is missing: endpoints it found, on another address than the hop that is known. */
  lemma CompletedFinds(scan: Scan, hops: Hops, network: nat -> Option<nat>)
    requires !Both(hops)
    ensures (var r := Completed(scan, hops, network);
             && (Plenty(scan) ==> r.Some?)
             && (r.Some? ==>
                   && scan.found.Some? && Both(r.value)
                   && (hops.outer.None? ==> r.value.outer.value in scan.found.value)
                   && (hops.inner.None? ==> r.value.inner.value in scan.found.value)
                   && (hops.outer.Some? ==> r.value.outer == hops.outer)
                   && (hops.inner.Some? ==> r.value.inner == hops.inner)
                   && (hops.outer.Some? || hops.inner.Some? ==> r.value.outer.value.ip != r.value.inner.value.ip)))
  {
    hide Picked, Spread;
    if scan.found.Some? {
      assert |Addresses(hops)| + Missing(hops) == 2;
      var picked := Picked(scan.found.value, Addresses(hops), Missing(hops));
      SpreadIsOut(picked, network);
      var found := if scan.spread then Spread(picked, network) else picked;
      forall e | e in found
        ensures e.ip !in Addresses(hops) && e in scan.found.value
      {
        assert e in multiset(found);
        assert e in multiset(picked);
        assert e in picked;
      }
    }
  }

  /** What holds of a log: at most two runs a scan, pins kept, and the other hops as the scan found them. */
  ghost predicate GoolProper(log: seq<Event>, pinned: Hops) {
    FromScans(log, pinned) && (!Both(pinned) ==> RescansInTime(log))
  }

  /** One more run over the hops that are known. */
  lemma ProperAgain(log: seq<Event>, pinned: Hops)
    requires GoolProper(log, pinned) && Separate(pinned) && Both(Known(log, pinned))
    ensures GoolProper(log + [RunOver(Known(log, pinned))], pinned)
  {
    hide RunsSinceScan, LastScan, RescansInTime, FromScans;
    var known := Known(log, pinned);
    EventMore(log, RunOver(known));
    if Both(pinned) {
      LastKeeps(log, pinned);
    } else {
      var rest := log[..|log| - 1];
      LastKeeps(log, pinned);
      EventMore(rest, log[|log| - 1]);
      assert log == rest + [log[|log| - 1]];
      RescansMore(log, RunOver(known));
    }
    FromScansMore(log, RunOver(known), pinned);
  }

  lemma LastKeeps(log: seq<Event>, pinned: Hops)
    requires FromScans(log, pinned)
    ensures log != [] ==> KeepsPins(log[|log| - 1], pinned) && HopsFound(log[..|log| - 1], log[|log| - 1], pinned)
  {
  }

  /** A scan, and the run it may lead to. */
  lemma ProperScan(log: seq<Event>, pinned: Hops, scan: Scan, network: nat -> Option<nat>)
    requires GoolProper(log, pinned) && !Both(pinned)
    ensures (var asked, r := log + [Scanned(scan.found)], Completed(scan, pinned, network);
             && GoolProper(asked, pinned)
             && (r.Some? ==> Both(r.value) && GoolProper(asked + [RunOver(r.value)], pinned)))
  {
    hide RunsSinceScan, LastScan, RescansInTime, FromScans, Completed, Plenty;
    var asked, r := log + [Scanned(scan.found)], Completed(scan, pinned, network);
    EventMore(log, Scanned(scan.found));
    RescansMore(log, Scanned(scan.found));
    FromScansMore(log, Scanned(scan.found), pinned);
    CompletedFinds(scan, pinned, network);
    if r.Some? {
      EventMore(asked, RunOver(r.value));
      RescansMore(asked, RunOver(r.value));
      FromScansMore(asked, RunOver(r.value), pinned);
    }
  }

  lemma GoolProperLater(scan: Scan, pinned: Hops, network: nat -> Option<nat>, log: seq<Event>)
    requires GoolProper(log, pinned) && Separate(pinned)
    ensures (var log' := GoolLater(scan, pinned, network, log);
             && GoolProper(log', pinned)
             && TunnelCount(log) <= TunnelCount(log') <= TunnelCount(log) + 1
             && (Both(pinned) || Plenty(scan) ==> TunnelCount(log') == TunnelCount(log) + 1))
  {
    hide GoolProper, Completed, Plenty, TunnelCount, RunsSinceScan;
    var known := Known(log, pinned);
    if Both(known) {
      ProperAgain(log, pinned);
      EventMore(log, RunOver(known));
    } else {
      ProperScan(log, pinned, scan, network);
      CompletedFinds(scan, pinned, network);
      var asked, r := log + [Scanned(scan.found)], Completed(scan, pinned, network);
      EventMore(log, Scanned(scan.found));
      if r.Some? {
        EventMore(asked, RunOver(r.value));
      } else {
        assert asked + [] == asked;
      }
    }
  }

  lemma {:induction false} GoolProperLog(rounds: seq<Scan>, pinned: Hops, network: nat -> Option<nat>)
    requires Separate(pinned)
    ensures (var log := GoolLog(rounds, pinned, network);
             && GoolProper(log, pinned)
             && TunnelCount(log) <= |rounds|
             && (Both(pinned) || (forall i :: 0 <= i < |rounds| ==> Plenty(rounds[i])) ==>
                   TunnelCount(log) == |rounds|))
    decreases |rounds|
  {
    hide GoolProper, Plenty, TunnelCount, GoolLater;
    if rounds == [] {
      GoolProperEmpty(pinned);
    } else {
      var n := |rounds| - 1;
      var last, rest := rounds[n], rounds[..n];
      GoolProperLog(rest, pinned, network);
      GoolProperLater(last, pinned, network, GoolLog(rest, pinned, network));
    }
  }

  lemma GoolProperEmpty(pinned: Hops)
    ensures GoolProper([], pinned) && TunnelCount([]) == 0
  {
  }

  // ---------------------------------------------------------------- the loop itself

  /** What the loop knows is what the log tells. */
  ghost predicate Follows(log: seq<Event>, pinned: Hops, hops: Hops, fails: nat) {
    if Both(pinned) then
      hops == pinned && fails <= MAX_CONSECUTIVE_FAILS && forall e :: e in log ==> e == RunOver(pinned)
    else if Both(hops) then
      && (pinned.outer.Some? ==> hops.outer == pinned.outer) && (pinned.inner.Some? ==> hops.inner == pinned.inner)
      && log != [] && log[|log| - 1] == RunOver(hops) && RunsSinceScan(log) == fails <= MAX_CONSECUTIVE_FAILS
    else hops == pinned && fails == 0 && (log == [] || log[|log| - 1].Scanned?)
  }

  /** Completes the hops that are known from a scan, if it finds enough. */
  method Complete(scan: Scan, hops: Hops, network: nat -> Option<nat>) returns (r: Option<Hops>)
    requires !Both(hops)
    ensures r == Completed(scan, hops, network)
  {
    hide Picked;
    if scan.found.None? {
      return None;
    }
    var picked := PickPeers(scan.found.value, Addresses(hops), Missing(hops));
    if picked == [] {
      return None;
    }
    var found := new Endpoint[|picked|](i requires 0 <= i < |picked| => picked[i]);
    assert found[..] == picked;
    if scan.spread {
      SpreadHops(found, network);
    }
    var outer, next := hops.outer, 0;
    if outer.None? {
      outer, next := Some(found[0]), 1;
    }
    var inner := hops.inner;
    if inner.None? && next < found.Length {
      inner := Some(found[next]);
    }
    if inner.None? {
      return None;
    }
    return Some(Hops(outer, inner));
  }

  /** Hops that were not pinned are forgotten after too many failures. */
  method Forget(log: seq<Event>, pinned: Hops, hops: Hops, fails: nat) returns (hops': Hops, fails': nat)
    requires Follows(log, pinned, hops, fails)
    ensures hops' == Known(log, pinned)
    ensures fails' == if fails >= MAX_CONSECUTIVE_FAILS then 0 else fails
    ensures fails < MAX_CONSECUTIVE_FAILS ==> hops' == hops
    ensures fails >= MAX_CONSECUTIVE_FAILS ==> hops' == pinned
  {
    hops', fails' := hops, fails;
    if fails >= MAX_CONSECUTIVE_FAILS {
      if pinned.outer.None? {
        hops' := hops'.(outer := None);
      }
      if pinned.inner.None? {
        hops' := hops'.(inner := None);
      }
      fails' := 0;
    }
    if Both(pinned) && log != [] {
      assert log[|log| - 1] in log;
    }
  }

  /** One turn: forget, scan if need be, run. */
  method GoolTurn(scan: Scan, pinned: Hops, network: nat -> Option<nat>, log: seq<Event>, hops: Hops, fails: nat)
    returns (log': seq<Event>, hops': Hops, fails': nat)
    requires Follows(log, pinned, hops, fails)
    ensures log' == GoolLater(scan, pinned, network, log) && Follows(log', pinned, hops', fails')
  {
    hide Completed, RunsSinceScan;
    log' := log;
    hops', fails' := Forget(log, pinned, hops, fails);
    if !Both(hops') {
      EventMore(log, Scanned(scan.found));
      log' := log + [Scanned(scan.found)];
      CompletedFinds(scan, hops', network);
      var found := Complete(scan, hops', network);
      if found.None? {
        return;
      }
      hops' := found.value;
    }
    var outer, inner := hops'.outer.value, hops'.inner.value;
    EventMore(log', RunOver(hops'));
    log' := log' + [Tunnel(outer, inner, inner.ip != outer.ip)];
    fails' := fails' + 1;
  }

  /**
    * The loop, over any rounds: what it keeps in its variables comes to the log that each turn makes
    * of the log before it. A pinned hop is never replaced, and any other was found by the last scan; a
    * pair with a hop that is not pinned runs at most twice before the next scan, and no tunnel comes
    * up with both hops on one address. A round that knows its hops, or finds them, is never idle.
    */
  method RunGool(pinned: Hops, rounds: seq<Scan>, network: nat -> Option<nat>) returns (log: seq<Event>)
    ensures log == if Separate(pinned) then GoolLog(rounds, pinned, network) else []
    ensures forall i :: 0 <= i < |log| ==> KeepsPins(log[i], pinned) && HopsFound(log[..i], log[i], pinned)
    ensures !Both(pinned) ==> RescansInTime(log)
    ensures TunnelCount(log) <= |rounds|
    ensures Both(pinned) ==> TunnelCount(log) == if pinned.outer.value.ip == pinned.inner.value.ip then 0 else |rounds|
    ensures !Both(pinned) && (forall i :: 0 <= i < |rounds| ==> Plenty(rounds[i])) ==> TunnelCount(log) == |rounds|
  {
    hide Plenty, KeepsPins, HopsFound, GoolLater, TunnelCount;
    log := [];
    GoolProperEmpty(pinned);
    if pinned.outer.Some? && pinned.inner.Some? && pinned.outer.value.ip == pinned.inner.value.ip {
      return;
    }
    var hops, fails: nat := pinned, 0;
    assert rounds[..0] == [];
    for i := 0 to |rounds|
      invariant log == GoolLog(rounds[..i], pinned, network)
      invariant Follows(log, pinned, hops, fails)
    {
      hide Follows;
      assert rounds[..i + 1][..i] == rounds[..i];
      log, hops, fails := GoolTurn(rounds[i], pinned, network, log, hops, fails);
    }
    assert rounds[..|rounds|] == rounds;
    GoolProperLog(rounds, pinned, network);
  }
}
