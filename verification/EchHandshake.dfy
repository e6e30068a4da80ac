/**
  * The two handshake loops that offer an ECH key: the tunnel's over HTTP/2 and that of the HTTPS
  * calls. A server that turns the key down may hand back its own, which is offered once.
  */
module EchHandshake {
  import opened Bytes
  import EchConfig

  /** How a handshake ends: made, with ECH or without, or failed, perhaps for the key, with the server's own. */
  datatype Handshake = Made(accepted: bool) | Failed(rejected: bool, retry: Option<bytes>)

  /** What the world does: whether dial number n connects, whether BoringSSL takes a list, how handshake n ends. */
  datatype World = World(dials: nat -> bool, takes: bytes -> bool, answers: (nat, Option<bytes>) -> Handshake)

  datatype Fault = NotOfferable | NotTaken | NotDialed | HandshakeFailed | WithoutEch

  /** A list that may go into a handshake. */
  predicate Offerable(w: World, list: bytes) {
    EchConfig.Check(list).Ok? && w.takes(list)
  }

  /** The key a server handed back, when it may be offered: only for a key it turned down. */
  function UsableRetry(w: World, ech: Option<bytes>): Option<bytes> {
    match w.answers(0, ech)
    case Failed(true, Some(list)) =>
      if ech.Some? && list != [] && EchConfig.Check(list).Ok? then Some(list) else None
    case _ => None
  }

  /** The first handshake is made. */
  predicate FirstMade(w: World, ech: Option<bytes>) {
    (ech.Some? ==> Offerable(w, ech.value)) && w.dials(0)
  }

  /** The second handshake is made: the first failed for its key and the server's can be offered. */
  predicate SecondMade(w: World, ech: Option<bytes>) {
    var retry := UsableRetry(w, ech);
    FirstMade(w, ech) && retry.Some? && w.takes(retry.value) && w.dials(1)
  }

  /** All the handshakes of a run, by what they offered. */
  function Offers(w: World, ech: Option<bytes>): seq<Option<bytes>> {
    if SecondMade(w, ech) then [ech, UsableRetry(w, ech)] else if FirstMade(w, ech) then [ech] else []
  }

  /** A run connects exactly when its last handshake is made, and made with ECH if it was given a key. */
  predicate Connects(w: World, ech: Option<bytes>) {
    var offers := Offers(w, ech);
    offers != [] && match w.answers(|offers| - 1, offers[|offers| - 1])
                    case Made(accepted) => ech.Some? ==> accepted
                    case Failed(_, _) => false
  }

  /**
    * Against any server, a run makes at most two handshakes, the second only after the first was
    * turned down; each offers a list that passed the check, or none in a run without a key; and a
    * run given a key connects only on a handshake that took it.
    */
  lemma NeverDowngrades(w: World, ech: Option<bytes>)
    ensures |Offers(w, ech)| <= 2 && (ech.None? ==> |Offers(w, ech)| <= 1)
    ensures forall offer :: offer in Offers(w, ech) ==>
              (offer.Some? <==> ech.Some?) && (offer.Some? ==> EchConfig.Check(offer.value).Ok?)
    ensures |Offers(w, ech)| == 2 ==> w.answers(0, ech) == Failed(true, Offers(w, ech)[1])
    ensures Connects(w, ech) && ech.Some? ==>
              exists n :: 0 <= n < 2 && n < |Offers(w, ech)| && w.answers(n, Offers(w, ech)[n]) == Made(true)
  {
    hide EchConfig.Check;
    if Connects(w, ech) && ech.Some? {
      var n := |Offers(w, ech)| - 1;
      assert w.answers(n, Offers(w, ech)[n]) == Made(true);
    }
  }

  /** The handshakes of the HTTP/2 carrier; `adopted` is the key that replaces the session's. */
  method ConnectTls(ech: Option<bytes>, w: World)
    returns (r: Result<(), Fault>, offers: seq<Option<bytes>>, adopted: Option<bytes>)
    ensures offers == Offers(w, ech)
    ensures r.Ok? <==> Connects(w, ech)
    ensures adopted == if FirstMade(w, ech) then UsableRetry(w, ech) else None
  {
    hide EchConfig.Check;
    var offered, retried := ech, false;
    offers, adopted := [], None;
    while true
      invariant !retried ==> offered == ech && offers == [] && adopted == None
      invariant retried ==>
                  FirstMade(w, ech) && offers == [ech] && adopted == UsableRetry(w, ech) == offered && offered.Some?
      decreases !retried
    {
      if offered.Some? {
        var checked := EchConfig.CheckEchConfigList(offered.value);
        if checked.Err? {
          return Err(NotOfferable), offers, adopted;
        }
        if !w.takes(offered.value) {
          return Err(NotTaken), offers, adopted;
        }
      }
      if !w.dials(if retried then 1 else 0) {
        return Err(NotDialed), offers, adopted;
      }
      var end := w.answers(if retried then 1 else 0, offered);
      offers := offers + [offered];
      match end
      case Made(accepted) =>
        if offered.Some? && !accepted {
          return Err(WithoutEch), offers, adopted;
        }
        return Ok(()), offers, adopted;
      case Failed(rejected, configs) =>
        var usable := false;
        if !retried && offered.Some? && rejected && configs.Some? && configs.value != [] {
          var checked := EchConfig.CheckEchConfigList(configs.value);
          usable := checked.Ok?;
        }
        if !usable {
          return Err(HandshakeFailed), offers, adopted;
        }
        adopted, offered, retried := configs, configs, true;
    }
  }

  /** The handshakes of an HTTPS call; `key` is the key the caller is left with. */
  method Exchange(ech: Option<bytes>, w: World)
    returns (r: Result<(), Fault>, offers: seq<Option<bytes>>, key: Option<bytes>)
    ensures offers == Offers(w, ech)
    ensures r.Ok? <==> Connects(w, ech)
    ensures key == if FirstMade(w, ech) && UsableRetry(w, ech).Some? then UsableRetry(w, ech) else ech
  {
    hide EchConfig.Check;
    var retried := false;
    var accepted := false;
    offers, key := [], ech;
    while true
      invariant !retried ==> key == ech && offers == []
      invariant retried ==> FirstMade(w, ech) && offers == [ech] && key == UsableRetry(w, ech) && key.Some?
      decreases !retried
    {
      if key.Some? {
        var checked := EchConfig.CheckEchConfigList(key.value);
        if checked.Err? {
          return Err(NotOfferable), offers, key;
        }
        if !w.takes(key.value) {
          return Err(NotTaken), offers, key;
        }
      }
      if !w.dials(if retried then 1 else 0) {
        return Err(NotDialed), offers, key;
      }
      var end := w.answers(if retried then 1 else 0, key);
      offers := offers + [key];
      match end
      case Made(took) =>
        accepted := took;
        break;
      case Failed(rejected, configs) =>
        var usable := false;
        if key.Some? && !retried && rejected && configs.Some? && configs.value != [] {
          var checked := EchConfig.CheckEchConfigList(configs.value);
          usable := checked.Ok?;
        }
        if !usable {
          return Err(HandshakeFailed), offers, key;
        }
        key, retried := configs, true;
    }
    if key.Some? && !accepted {
      return Err(WithoutEch), offers, key;
    }
    return Ok(()), offers, key;
  }
}
