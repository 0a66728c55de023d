/**
 Connection set-up (`_start`, `_start_inner`, `connect`): who owns the WebRTC peer connection, which
 transports a forced relay leaves, and what the reported "direct" flag is worth.

 Everything awaited is an answer of the environment, and every await may instead be the point where
 the future is dropped: the answers are parameters, so a claim about a method is a claim about all runs.
 Rust's scope exits appear as an outer method that drops the guard after its body, however that ended.
 */
module ConnectionSetup {
  import opened Options
  import opened TransportRace

  datatype Transport = Tcp | Udp | IPv6 | WebRtc | Relay | WebSocket

  /** A punched transport, direct by nature. */
  predicate Classic(t: Transport) { t.Tcp? || t.Udp? || t.IPv6? }

  /**
   A connection with its direct flag.  `samples` are the answers of `is_relayed` taken on the way, each
   possibly unknown.
   */
  datatype Conn = Conn(typ: Transport, direct: bool, samples: seq<Option<bool>>)

  /**
   The honest flag: a direct connection is a punched one, or WebRTC of which every sample said that the
   nominated pair is not a TURN pair, and it was sampled at all.
   */
  ghost predicate Honest(c: Conn) {
    && (c.typ.WebRtc? ==> c.samples != [])
    && (c.direct <==> Classic(c.typ) || (c.typ.WebRtc? && forall i :: 0 <= i < |c.samples| ==> c.samples[i] == Some(false)))
  }

  /** An await: answered, or the future dropped there. */
  datatype Await<+T> = Cancelled | Ready(value: T)

  datatype Outcome = Returned(conn: Conn) | Errored | Dropped

  // ----- The peer connection and its guard -----

  class PeerConnection {
    var closed: bool

    constructor ()
      ensures !closed
    {
      closed := false;
    }

    method CloseDetached()
      modifies this
      ensures closed
    {
      closed := true;
    }
  }

  class OffererGuard {
    var stream: PeerConnection?

    constructor (stream: PeerConnection)
      ensures this.stream == stream
    {
      this.stream := stream;
    }

    /** Disarms the guard. */
    method IntoInner() returns (inner: PeerConnection?)
      modifies this
      ensures inner == old(stream) && stream == null
    {
      inner := stream;
      stream := null;
    }

    method Drop()
      modifies this, if stream == null then {} else {stream}
      ensures stream == null && (old(stream) != null ==> old(stream).closed)
    {
      if stream != null {
        stream.CloseDetached();
      }
      stream := null;
    }
  }

  /** Closed, or owned by a returned WebRTC connection: one of the two and not both. */
  ghost predicate Accounted(pc: PeerConnection?, r: Outcome)
    reads pc
  {
    && (pc != null ==> (pc.closed <==> !(r.Returned? && r.conn.typ.WebRtc?)))
    && (pc == null ==> !(r.Returned? && r.conn.typ.WebRtc?))
  }

  // ----- Racing attempts -----

  /** Attempt `id` reporting, with what `is_relayed` would answer if it is WebRTC; or the clock. */
  datatype Raw = Report(id: nat, ok: bool, sample: Option<bool>, at: int) | Tick(at: int)

  /** The connection an attempt of the given kind resolves to. */
  function ConnOf(kind: Transport, sample: Option<bool>): (c: Conn)
    ensures Honest(c) && c.typ == kind
  {
    match kind
    case WebRtc =>
      assert [sample][0] == sample;
      Conn(WebRtc, sample == Some(false), [sample])
    case Relay => Conn(Relay, false, [])
    case WebSocket => Conn(WebSocket, false, [])
    case _ => Conn(kind, true, [])
  }

  /** Attempt 0 is WebRTC; attempt i is of kind kinds[i - 1]. */
  function KindOf(kinds: seq<Transport>, id: nat): Transport {
    if 1 <= id <= |kinds| then kinds[id - 1] else WebRtc
  }

  function Schedule(kinds: seq<Transport>, raws: seq<Raw>): (h: seq<Event<Conn>>)
    ensures |h| == |raws|
    ensures forall i :: 0 <= i < |h| && h[i].Done? && h[i].report.Ok? ==>
      Honest(h[i].report.conn) && h[i].report.conn.typ == KindOf(kinds, h[i].id)
  {
    seq(|raws|, i requires 0 <= i < |raws| =>
      match raws[i]
      case Report(id, ok, sample, at) =>
        Done(id, if ok then Ok(ConnOf(KindOf(kinds, id), sample)) else Err("failed"), at)
      case Tick(at) => Clock(at))
  }

  function Direct(c: Conn): bool { c.direct }

  function Settle(v: Verdict<Conn>): Outcome {
    if v.Connected? then Returned(v.conn) else Errored
  }

  /** r is what the preferring race owes for a schedule; unfinished, it is dropped. */
  ghost predicate RaceOutcome(race: Race<Conn>, h: seq<Event<Conn>>, r: Outcome) {
    if r.Dropped? then forall k :: 0 <= k < |h| ==> !CommitsAt(race, h, k)
    else exists k, v :: 0 <= k < |h| && FirstCommit(race, h, k) && Delivers(race, h, k, v) && r == Settle(v)
  }

  /** r is what plain `select_ok` over n attempts owes for a schedule. */
  ghost predicate SelectOutcome(n: nat, h: seq<Event<Conn>>, r: Outcome) {
    if r.Dropped? then forall k :: 0 <= k < |h| ==> !SelectsAt(n, h, k)
    else exists k :: 0 <= k < |h| && SelectsAt(n, h, k) && (forall j :: 0 <= j < k ==> !SelectsAt(n, h, j))
                     && r == (if h[k].report.Ok? then Returned(h[k].report.conn) else Errored)
  }

  /** The preferring race over WebRTC and transports of the given kinds. */
  ghost predicate PreferringOutcome(kinds: seq<Transport>, window: int, raws: seq<Raw>, r: Outcome) {
    RaceOutcome(Race(|kinds|, window, Direct), Schedule(kinds, raws), r)
  }

  /** Plain `select_ok` over transports of the given kinds. */
  ghost predicate FirstOutcome(kinds: seq<Transport>, raws: seq<Raw>, r: Outcome) {
    SelectOutcome(|kinds|, Schedule(kinds, raws), r)
  }

  method RaceWebRtc(kinds: seq<Transport>, window: int, raws: seq<Raw>) returns (r: Outcome)
    requires kinds != []
    ensures PreferringOutcome(kinds, window, raws, r)
    ensures r.Returned? ==> Honest(r.conn) && (r.conn.typ in kinds || r.conn.typ.WebRtc?)
  {
    var h := Schedule(kinds, raws);
    var race := Race(|kinds|, window, Direct);
    var verdict, at := Run(race, h);
    if verdict.None? {
      return Dropped;
    }
    SucceedsIffSomeoneDid(race, h, at, verdict.value);
    r := Settle(verdict.value);
  }

  method RaceFirst(kinds: seq<Transport>, raws: seq<Raw>) returns (r: Outcome)
    requires kinds != []
    ensures FirstOutcome(kinds, raws, r)
    ensures r.Returned? ==> Honest(r.conn) && r.conn.typ in kinds
  {
    var first, at := SelectOk(|kinds|, Schedule(kinds, raws));
    if first.None? {
      return Dropped;
    }
    r := if first.value.Ok? then Returned(first.value.conn) else Errored;
  }

  // ----- connect -----

  datatype ConnectEnv = ConnectEnv(
    natType: Await<()>,
    race: seq<Raw>,
    window: int,
    relay: Await<bool>,
    secure: Await<bool>,
    fallbackRelay: Await<bool>,
    fallbackSecure: Await<bool>,
    relayedNow: Await<Option<bool>>)

  /** What `connect` is given besides the environment. */
  datatype ConnectArgs = ConnectArgs(forceRelay: bool, relayServer: bool, allowTcp: bool, udp: bool, v6: bool)

  function DirectKinds(a: ConnectArgs): seq<Transport> {
    (if a.allowTcp then [Tcp] else []) + (if a.udp then [Udp] else []) + (if a.v6 then [IPv6] else [])
  }

  /** Nothing was dropped while waiting, and a relay can be had and secured. */
  ghost predicate RelayWorks(env: ConnectEnv) {
    && env.natType.Ready? && env.relayedNow.Ready?
    && env.relay == Ready(true) && env.secure.Ready?
    && env.fallbackRelay == Ready(true) && env.fallbackSecure == Ready(true)
  }

  ghost predicate NothingDropped(env: ConnectEnv) {
    && env.natType.Ready? && env.relay.Ready? && env.secure.Ready?
    && env.fallbackRelay.Ready? && env.fallbackSecure.Ready? && env.relayedNow.Ready?
  }

  /** Which transports the call may come back with. */
  predicate Permits(a: ConnectArgs, webrtc: bool, t: Transport) {
    match t
    case Tcp => a.allowTcp && !a.forceRelay
    case Udp => a.udp && !a.forceRelay
    case IPv6 => a.v6 && !a.forceRelay
    case WebRtc => webrtc
    case Relay => a.relayServer
    case WebSocket => false
  }

  /** The punch is among those the call can make, and its attempt's number: TCP before UDP before IPv6. */
  predicate Punches(a: ConnectArgs, t: Transport) {
    (t.Tcp? && a.allowTcp) || (t.Udp? && a.udp) || (t.IPv6? && a.v6)
  }

  function PunchId(a: ConnectArgs, t: Transport): nat {
    1 + (if !t.Tcp? && a.allowTcp then 1 else 0) + (if t.IPv6? && a.udp then 1 else 0)
  }

  ghost predicate HasReported(raws: seq<Raw>, id: nat) {
    exists i :: 0 <= i < |raws| && raws[i].Report? && raws[i].id == id
  }

  /** Attempt `id` comes up, and no other does. */
  ghost predicate OnlyUp(raws: seq<Raw>, id: nat) {
    && HasReported(raws, id)
    && forall i :: 0 <= i < |raws| && raws[i].Report? ==> (raws[i].ok <==> raws[i].id == id)
  }

  /** The punch that alone comes up is what the call returns, as a direct connection. */
  ghost predicate ReturnsThePunch(a: ConnectArgs, env: ConnectEnv, r: Outcome) {
    env.natType.Ready? && env.secure == Ready(true) && !a.forceRelay ==>
      forall t :: Punches(a, t) && OnlyUp(env.race, PunchId(a, t)) ==> r == Returned(Conn(t, true, []))
  }

  /** `connect`: the guard lives as long as the call, and is dropped however the call ends. */
  method Connect(a: ConnectArgs, offerer: PeerConnection?, env: ConnectEnv) returns (r: Outcome, ghost won: Outcome)
    requires offerer != null ==> !offerer.closed
    modifies if offerer == null then {} else {offerer}
    ensures Accounted(offerer, r)
    ensures r.Returned? ==> Honest(r.conn)
    ensures r.Returned? && a.forceRelay ==> !Classic(r.conn.typ)
    ensures KeepsTheWin(a, env, won, r)
    ensures env.natType.Ready? ==> DirectOutcome(a, offerer != null, env, won)
    ensures r.Returned? ==> Permits(a, offerer != null, r.conn.typ)
    ensures ReturnsThePunch(a, env, r)
  {
    if offerer == null {
      r, won := ConnectBody(a, null, env);
    } else {
      var guard := new OffererGuard(offerer);
      r, won := ConnectBody(a, guard, env);
      guard.Drop();
    }
    PunchReturned(a, offerer != null, env, won, r);
  }

  lemma PunchReturned(a: ConnectArgs, webrtc: bool, env: ConnectEnv, won: Outcome, r: Outcome)
    requires KeepsTheWin(a, env, won, r) && (env.natType.Ready? ==> DirectOutcome(a, webrtc, env, won))
    ensures ReturnsThePunch(a, env, r)
  {
    if env.natType.Ready? {
      forall t | Punches(a, t) && OnlyUp(env.race, PunchId(a, t))
        ensures won == Returned(Conn(t, true, []))
      {
        OnlyPunchUp(a, webrtc, env, won, t);
      }
    }
  }

  /** `won` is what the attempts that could be made came to. */
  ghost predicate DirectOutcome(a: ConnectArgs, webrtc: bool, env: ConnectEnv, won: Outcome) {
    var kinds := DirectKinds(a);
    if kinds != [] then
      if webrtc then PreferringOutcome(kinds, env.window, env.race, won) else FirstOutcome(kinds, env.race, won)
    else
      if webrtc then FirstOutcome([WebRtc], env.race, won) else won.Errored?
  }

  /** What becomes of the race's result `won`: success is not given away, and a working relay is used. */
  ghost predicate KeepsTheWin(a: ConnectArgs, env: ConnectEnv, won: Outcome, r: Outcome) {
    // A win that is allowed and secured is returned as it is, WebRTC with one sample more.
    && (won.Returned? && env.secure == Ready(true) && !won.conn.typ.WebRtc? && !a.forceRelay ==> r == won)
    && (won.Returned? && env.secure == Ready(true) && won.conn.typ.WebRtc? && env.relayedNow.Ready? ==>
          r.Returned? && r.conn.typ.WebRtc? && r.conn.samples == won.conn.samples + [env.relayedNow.value])
    // With a relay server that works, only dropping the future can keep the call from succeeding.
    && (a.relayServer && RelayWorks(env) && !won.Dropped? && (env.secure == Ready(true) || (won.Returned? && won.conn.typ.WebRtc?)) ==>
          r.Returned?)
    && (won.Dropped? ==> r.Dropped?)
    // What is returned is the win's own transport or a relay, and its handshake succeeded.
    && (r.Returned? ==> r.conn.typ.Relay? || (won.Returned? && r.conn.typ == won.conn.typ))
    && (r.Returned? ==> env.secure == Ready(true)
                        || (env.secure == Ready(false) && won.Returned? && won.conn.typ.WebRtc? && r.conn.typ.Relay?
                            && env.fallbackRelay == Ready(true) && env.fallbackSecure == Ready(true)))
    // Where no await was dropped the call ends with a result or an error.
    && (!won.Dropped? && NothingDropped(env) ==> !r.Dropped?)
    // Without a win and without a relay server there is nothing to return.
    && (!won.Returned? && !a.relayServer ==> !r.Returned?)
  }

  /** The guard's state when the body is left: disarmed exactly when WebRTC is returned. */
  ghost predicate Handed(guard: OffererGuard, pc: PeerConnection, r: Outcome)
    reads guard, pc
  {
    if r.Returned? && r.conn.typ.WebRtc? then guard.stream == null && !pc.closed
    else guard.stream == pc || (guard.stream == null && pc.closed)
  }

  method ConnectBody(a: ConnectArgs, guard: OffererGuard?, env: ConnectEnv) returns (r: Outcome, ghost won: Outcome)
    requires guard != null ==> guard.stream != null && !guard.stream.closed
    modifies guard, if guard != null && guard.stream != null then {guard.stream} else {}
    ensures guard == null ==> !(r.Returned? && r.conn.typ.WebRtc?)
    ensures guard != null ==> Handed(guard, old(guard.stream), r)
    ensures r.Returned? ==> Honest(r.conn)
    ensures r.Returned? && a.forceRelay ==> !Classic(r.conn.typ)
    ensures KeepsTheWin(a, env, won, r)
    ensures env.natType.Ready? ==> DirectOutcome(a, guard != null, env, won)
    ensures won.Returned? ==> Punches(a, won.conn.typ) || (guard != null && won.conn.typ.WebRtc?)
    ensures r.Returned? && r.conn.typ.Relay? ==> a.relayServer
  {
    won := Dropped;
    if env.natType.Cancelled? {
      return Dropped, won;
    }
    var result := RaceDirect(a, guard != null, env);
    won := result;
    if result.Dropped? {
      return Dropped, won;
    }
    // The relay override: a forced relay keeps only a WebRTC win.
    if result.Errored? || (a.forceRelay && !result.conn.typ.WebRtc?) {
      if !a.relayServer {
        return Errored, won;
      }
      if env.relay.Cancelled? {
        return Dropped, won;
      }
      if !env.relay.value {
        return Errored, won;
      }
      result := Returned(Conn(Relay, false, []));
    }
    r := SecureWin(a, guard, env, result.conn);
  }

  /** What the handshake makes of the transport it is run on. */
  ghost predicate HandshakeOutcome(a: ConnectArgs, env: ConnectEnv, c: Conn, r: Outcome) {
    if env.secure.Cancelled? then r.Dropped?
    else if env.secure.value then
      if !c.typ.WebRtc? then r == Returned(c)
      else if env.relayedNow.Cancelled? then r.Dropped?
      else r.Returned? && r.conn.typ.WebRtc? && r.conn.samples == c.samples + [env.relayedNow.value]
    else if !(c.typ.WebRtc? && a.relayServer) then r.Errored?
    else
      && (r.Returned? <==> env.fallbackRelay == Ready(true) && env.fallbackSecure == Ready(true))
      && (r.Returned? ==> r.conn == Conn(Relay, false, []))
      && (env.fallbackRelay.Ready? && env.fallbackSecure.Ready? ==> !r.Dropped?)
  }

  /** The handshake, the fallback after a failed one on WebRTC, and the last sample before the hand-over. */
  method SecureWin(a: ConnectArgs, guard: OffererGuard?, env: ConnectEnv, c: Conn) returns (r: Outcome)
    requires guard != null ==> guard.stream != null && !guard.stream.closed
    requires Honest(c) && (c.typ.WebRtc? ==> guard != null)
    modifies guard, if guard != null && guard.stream != null then {guard.stream} else {}
    ensures guard != null ==> Handed(guard, old(guard.stream), r)
    ensures r.Returned? ==> Honest(r.conn)
    ensures HandshakeOutcome(a, env, c, r)
  {
    if env.secure.Cancelled? {
      return Dropped;
    }
    if !env.secure.value {
      if !(c.typ.WebRtc? && a.relayServer) {
        return Errored;
      }
      // WebRTC won but its handshake failed: close it first, then a fresh relay.
      guard.Drop();
      r := FallBackToRelay(Relay, env.fallbackRelay, env.fallbackSecure);
    } else if c.typ.WebRtc? {
      if env.relayedNow.Cancelled? {
        return Dropped;
      }
      var sample := env.relayedNow.value;
      SampledAgain(c, sample);
      r := Returned(Conn(WebRtc, c.direct && sample == Some(false), c.samples + [sample]));
      var kept := guard.IntoInner();
    } else {
      r := Returned(c);
    }
  }

  lemma SampledAgain(c: Conn, sample: Option<bool>)
    requires Honest(c) && c.typ.WebRtc?
    ensures Honest(Conn(WebRtc, c.direct && sample == Some(false), c.samples + [sample]))
  {
    var all := c.samples + [sample];
    assert all[|c.samples|] == sample;
    assert forall i :: 0 <= i < |c.samples| ==> all[i] == c.samples[i];
  }

  method RaceDirect(a: ConnectArgs, webrtc: bool, env: ConnectEnv) returns (r: Outcome)
    ensures r.Returned? ==> Honest(r.conn) && (Punches(a, r.conn.typ) || (webrtc && r.conn.typ.WebRtc?))
    ensures DirectOutcome(a, webrtc, env, r)
  {
    var kinds := DirectKinds(a);
    if webrtc && kinds != [] {
      r := RaceWebRtc(kinds, env.window, env.race);
    } else if webrtc {
      r := RaceFirst([WebRtc], env.race);
    } else if kinds != [] {
      r := RaceFirst(kinds, env.race);
    } else {
      r := Errored;
    }
  }

  /** A freshly coordinated relay after a failed WebRTC handshake: never direct. */
  method FallBackToRelay(typ: Transport, relay: Await<bool>, secure: Await<bool>) returns (r: Outcome)
    requires typ.Relay? || typ.WebSocket?
    ensures r.Returned? ==> r.conn == Conn(typ, false, [])
    ensures relay == Ready(true) && secure == Ready(true) <==> r.Returned?
    ensures relay.Cancelled? || (relay.value && secure.Cancelled?) <==> r.Dropped?
  {
    if relay.Cancelled? {
      return Dropped;
    } else if !relay.value {
      return Errored;
    } else if secure.Cancelled? {
      return Dropped;
    } else if !secure.value {
      return Errored;
    }
    r := Returned(Conn(typ, false, []));
  }

  // ----- The peer's relay answer, inside _start_inner -----

  /** A relay response: whether it carries a WebRTC answer and a usable v6 address. */
  datatype RelayEnv = RelayEnv(
    answer: bool,
    v6Port: bool,
    v6Connect: Await<bool>,
    setRemote: Await<bool>,
    addCandidates: Await<()>,
    race: seq<Raw>,
    window: int,
    secure: Await<bool>,
    fallbackRelay: Await<bool>,
    fallbackSecure: Await<bool>)

  datatype Adoption = Adopted | NotAdopted | Abandoned

  /**
   Applies the answer while the guard still holds the stream; only success disarms it.  The guard goes
   out of scope at the end, so a failed or dropped set-up closes the peer connection.
   */
  method Adopt(guard: OffererGuard, setRemote: Await<bool>, addCandidates: Await<()>) returns (r: Adoption)
    requires guard.stream != null && !guard.stream.closed
    modifies guard, guard.stream
    ensures guard.stream == null
    ensures old(guard.stream).closed <==> !r.Adopted?
    ensures r.Adopted? <==> setRemote == Ready(true) && addCandidates.Ready?
    ensures r.NotAdopted? <==> setRemote == Ready(false)
    ensures r.Abandoned? <==> setRemote.Cancelled? || (setRemote.value && addCandidates.Cancelled?)
  {
    if setRemote.Cancelled? {
      r := Abandoned;
    } else if !setRemote.value {
      r := NotAdopted;
    } else if addCandidates.Cancelled? {
      r := Abandoned;
    } else {
      var inner := guard.IntoInner();
      r := Adopted;
    }
    guard.Drop();
  }

  /** The transports raced in the relay branch besides WebRTC. */
  function RelayKinds(ws: bool, v6: bool, env: RelayEnv): seq<Transport> {
    (if v6 && env.v6Port && env.v6Connect == Ready(true) then [IPv6] else []) + [if ws then WebSocket else Relay]
  }

  /** Under a relay policy WebRTC is one attempt among the others; otherwise it is preferred. */
  ghost predicate RelayOutcome(policyRelay: bool, webrtc: bool, kinds: seq<Transport>, env: RelayEnv, won: Outcome) {
    if !webrtc then FirstOutcome(kinds, env.race, won)
    else if policyRelay then FirstOutcome(kinds + [WebRtc], env.race, won)
    else PreferringOutcome(kinds, env.window, env.race, won)
  }

  /** No await before the race was the end of it. */
  ghost predicate RelayRaced(offer: bool, v6: bool, env: RelayEnv) {
    && (v6 && env.v6Port ==> env.v6Connect.Ready?)
    && (offer && env.answer ==> env.setRemote == Ready(false) || (env.setRemote == Ready(true) && env.addCandidates.Ready?))
  }

  /** A secured win is returned as it is; a WebRTC win that cannot be secured gives way to a relay that works. */
  ghost predicate KeepsTheRelayWin(env: RelayEnv, won: Outcome, r: Outcome) {
    && (won.Returned? && env.secure == Ready(true) ==> r == won)
    && (won.Returned? && won.conn.typ.WebRtc? && env.secure == Ready(false) ==>
          (r.Returned? <==> env.fallbackRelay == Ready(true) && env.fallbackSecure == Ready(true)))
    && (!won.Returned? ==> r == won)
    // A transport whose handshake failed is not returned; only WebRTC has a relay to give way to.
    && (r.Returned? ==> env.secure == Ready(true)
                        || (env.secure == Ready(false) && won.conn.typ.WebRtc? && !Classic(r.conn.typ) && !r.conn.typ.WebRtc?
                            && env.fallbackRelay == Ready(true) && env.fallbackSecure == Ready(true)))
    && (won.Returned? && !won.conn.typ.WebRtc? && env.secure == Ready(false) ==> r.Errored?)
    && (won.Returned? && env.secure.Cancelled? ==> r.Dropped?)
  }

  /** Which transports the relay branch may come back with. */
  predicate RelayPermits(ws: bool, v6: bool, offer: bool, env: RelayEnv, t: Transport) {
    match t
    case WebSocket => ws
    case Relay => !ws
    case IPv6 => v6 && env.v6Port && env.v6Connect == Ready(true)
    case WebRtc => offer && env.answer && env.setRemote == Ready(true)
    case _ => false
  }

  /** The relay branch: takes the offerer's guard, whose stream is pc, and always uses it up. */
  method RelayPath(policyRelay: bool, ws: bool, v6: bool, guard: OffererGuard?, env: RelayEnv)
    returns (r: Outcome, ghost won: Outcome)
    requires guard != null ==> guard.stream != null && !guard.stream.closed
    modifies guard, if guard != null && guard.stream != null then {guard.stream} else {}
    ensures guard != null ==> guard.stream == null
    ensures Accounted(if guard == null then null else old(guard.stream), r)
    ensures r.Returned? ==> Honest(r.conn)
    ensures r.Returned? && !v6 ==> !Classic(r.conn.typ)
    ensures r.Returned? ==> RelayPermits(ws, v6, guard != null, env, r.conn.typ)
    ensures KeepsTheRelayWin(env, won, r)
    ensures RelayRaced(guard != null, v6, env) ==>
      RelayOutcome(policyRelay, guard != null && env.answer && env.setRemote == Ready(true), RelayKinds(ws, v6, env), env, won)
  {
    won := Dropped;
    var pc := if guard == null then null else guard.stream;
    var punchV6 := false;
    if v6 && env.v6Port {
      if env.v6Connect.Cancelled? {
        if guard != null {
          guard.Drop();
        }
        return Dropped, won;
      }
      punchV6 := env.v6Connect.value;
    }
    var adopted := NotAdopted;
    if guard != null {
      if env.answer {
        adopted := Adopt(guard, env.setRemote, env.addCandidates);
      } else {
        guard.Drop();
      }
    }
    if adopted.Abandoned? {
      assert !RelayRaced(guard != null, v6, env);
      return Dropped, won;
    }
    var relay := if ws then WebSocket else Relay;
    var kinds := (if punchV6 then [IPv6] else []) + [relay];
    assert kinds == RelayKinds(ws, v6, env);
    if adopted.Adopted? {
      // Guarded again, across the race and the handshake.
      var webrtcGuard := new OffererGuard(pc);
      r, won := RelayRace(policyRelay, relay, kinds, webrtcGuard, env);
      webrtcGuard.Drop();
    } else {
      r, won := PlainRelay(kinds, env);
    }
  }

  /** Without WebRTC: the first transport up, if it can be secured. */
  method PlainRelay(kinds: seq<Transport>, env: RelayEnv) returns (r: Outcome, won: Outcome)
    requires kinds != [] && WebRtc !in kinds
    ensures FirstOutcome(kinds, env.race, won) && KeepsTheRelayWin(env, won, r)
    ensures r.Returned? ==> Honest(r.conn) && r.conn.typ in kinds
  {
    won := RaceFirst(kinds, env.race);
    r := won;
    if won.Returned? && env.secure != Ready(true) {
      r := if env.secure.Cancelled? then Dropped else Errored;
    }
  }

  method RelayRace(policyRelay: bool, relay: Transport, kinds: seq<Transport>, guard: OffererGuard, env: RelayEnv)
    returns (r: Outcome, ghost won: Outcome)
    requires guard.stream != null && !guard.stream.closed && (relay.Relay? || relay.WebSocket?)
    requires kinds != [] && WebRtc !in kinds
    modifies guard, guard.stream
    ensures Handed(guard, old(guard.stream), r)
    ensures r.Returned? ==> Honest(r.conn) && (r.conn.typ in kinds || r.conn.typ.WebRtc? || r.conn.typ == relay)
    ensures KeepsTheRelayWin(env, won, r) && RelayOutcome(policyRelay, true, kinds, env, won)
  {
    if policyRelay {
      // Relay-only WebRTC has no advantage: the first success of all attempts.
      r := RaceFirst(kinds + [WebRtc], env.race);
    } else {
      r := RaceWebRtc(kinds, env.window, env.race);
    }
    won := r;
    if !r.Returned? {
      return;
    }
    if env.secure.Cancelled? {
      return Dropped, won;
    }
    if !env.secure.value {
      if !r.conn.typ.WebRtc? {
        return Errored, won;
      }
      guard.Drop();
      r := FallBackToRelay(relay, env.fallbackRelay, env.fallbackSecure);
    } else if r.conn.typ.WebRtc? {
      var kept := guard.IntoInner();
    }
  }

  // ----- The punch loop -----

  /** A rendezvous message, as far as set-up depends on it. */
  datatype Msg =
    | Punched(refused: bool, answer: bool, port: bool, relayServer: bool, udp: bool, v6: bool, connects: Await<()>)
    | RelayAnswer(relay: RelayEnv)
    | Candidate
    | Unknown

  /** One turn of the inner loop: milliseconds since the attempt began, and what waiting for a message brought. */
  datatype Poll = Poll(elapsed: int, msg: Await<Option<Msg>>)

  /** A punch attempt: the request sent, then turns of the inner loop. */
  datatype Attempt = Attempt(sent: Await<bool>, polls: seq<Poll>)

  const ATTEMPTS: nat := 3

  /** How long attempt i listens. */
  function Budget(i: nat): nat { i * 3000 }

  datatype PunchExit = NoAnswer | Answered(punched: Msg) | Relayed(env: RelayEnv) | Broken | Left

  /** What a received message makes of the loop; `None` lets the attempt go on. */
  function Decides(msg: Msg): Option<PunchExit> {
    match msg
    case Punched(refused, _, _, _, _, _, connects) =>
      if refused then Some(Broken) else if connects.Cancelled? then Some(Left) else Some(Answered(msg))
    case RelayAnswer(relay) => Some(Relayed(relay))
    case Candidate => None
    case Unknown => None
  }

  function PollDecides(msg: Await<Option<Msg>>): Option<PunchExit> {
    if msg.Cancelled? then Some(Left) else if msg.value.None? then None else Decides(msg.value.value)
  }

  /** A turn after which the attempt listens on: a message came and decided nothing. */
  predicate ListensOn(poll: Poll) {
    poll.msg.Ready? && poll.msg.value.Some? && Decides(poll.msg.value.value).None?
  }

  /** Attempt i gets as far as its turn k: in time so far, and every earlier turn let it listen on. */
  ghost predicate Polled(i: nat, attempt: Attempt, k: nat) {
    && k < |attempt.polls|
    && (forall j :: 0 <= j <= k ==> attempt.polls[j].elapsed < Budget(i))
    && (forall j :: 0 <= j < k ==> ListensOn(attempt.polls[j]))
  }

  /** Attempt i ends the whole loop in the given way. */
  ghost predicate Ends(i: nat, attempt: Attempt, exit: PunchExit) {
    match attempt.sent
    case Cancelled => exit.Left?
    case Ready(ok) =>
      if !ok then exit.Broken?
      else exists k: nat :: Polled(i, attempt, k) && PollDecides(attempt.polls[k].msg) == Some(exit)
  }

  ghost predicate Undecided(i: nat, attempt: Attempt) {
    forall exit :: !Ends(i, attempt, exit)
  }

  /** The first attempt that ends the loop says how; if none of the three does nobody answered. */
  ghost predicate PunchDecidedBy(punch: nat -> Attempt, exit: PunchExit) {
    if exit.NoAnswer? then forall i: nat :: 1 <= i <= ATTEMPTS ==> Undecided(i, punch(i))
    else exists i: nat :: 1 <= i <= ATTEMPTS && Ends(i, punch(i), exit) && forall j: nat :: 1 <= j < i ==> Undecided(j, punch(j))
  }

  /** The attempts alone decide how the loop ends. */
  lemma PunchUnique(punch: nat -> Attempt, e: PunchExit, f: PunchExit)
    requires PunchDecidedBy(punch, e) && PunchDecidedBy(punch, f)
    ensures e == f
  {
    if !e.NoAnswer? && !f.NoAnswer? {
      var i: nat :| 1 <= i <= ATTEMPTS && Ends(i, punch(i), e) && forall j: nat :: 1 <= j < i ==> Undecided(j, punch(j));
      var j: nat :| 1 <= j <= ATTEMPTS && Ends(j, punch(j), f) && forall k: nat :: 1 <= k < j ==> Undecided(k, punch(k));
      assert i == j;
      EndsOnce(i, punch(i), e, f);
    }
  }

  lemma EndsOnce(i: nat, attempt: Attempt, e: PunchExit, f: PunchExit)
    requires Ends(i, attempt, e) && Ends(i, attempt, f)
    ensures e == f
  {
    if attempt.sent == Ready(true) {
      var k: nat :| Polled(i, attempt, k) && PollDecides(attempt.polls[k].msg) == Some(e);
      var l: nat :| Polled(i, attempt, l) && PollDecides(attempt.polls[l].msg) == Some(f);
      assert k < l ==> ListensOn(attempt.polls[k]);
      assert l < k ==> ListensOn(attempt.polls[l]);
    }
  }

  /** One attempt: sends the request and listens until its time is up, nothing comes, or something decides. */
  method RunAttempt(i: nat, attempt: Attempt) returns (decided: Option<PunchExit>)
    ensures decided.Some? ==> Ends(i, attempt, decided.value)
    ensures decided.None? ==> Undecided(i, attempt)
    ensures decided.Some? ==> !decided.value.NoAnswer? && (decided.value.Answered? ==> decided.value.punched.Punched?)
  {
    if attempt.sent.Cancelled? {
      return Some(Left);
    } else if !attempt.sent.value {
      return Some(Broken);
    }
    var k := 0;
    while k < |attempt.polls|
      invariant k <= |attempt.polls|
      invariant forall j :: 0 <= j < k ==> attempt.polls[j].elapsed < Budget(i) && ListensOn(attempt.polls[j])
    {
      var poll := attempt.polls[k];
      if poll.elapsed >= Budget(i) {
        return None;
      }
      assert Polled(i, attempt, k);
      if poll.msg == Ready(None) {
        return None;
      }
      decided := PollDecides(poll.msg);
      if decided.Some? {
        return;
      }
      k := k + 1;
    }
    decided := None;
  }

  /** The three punch attempts: the first that is decisive ends them. */
  method Punch(punch: nat -> Attempt) returns (exit: PunchExit)
    ensures PunchDecidedBy(punch, exit)
    ensures exit.Answered? ==> exit.punched.Punched?
  {
    for i := 1 to ATTEMPTS + 1
      invariant forall j: nat :: 1 <= j < i ==> Undecided(j, punch(j))
    {
      var decided := RunAttempt(i, punch(i));
      if decided.Some? {
        return decided.value;
      }
    }
    exit := NoAnswer;
  }

  // ----- _start_inner -----

  datatype InnerArgs = InnerArgs(forceRelay: bool, policyRelay: bool, ws: bool, tcpPunch: bool, legacySecure: bool, udp: bool, v6: bool)

  datatype InnerEnv = InnerEnv(
    socket: Await<bool>,
    natType: Await<()>,
    exchange: Await<bool>,
    reconnect: Await<bool>,
    legacy: Await<bool>,
    udpWait: Await<()>,
    punch: nat -> Attempt,
    setRemote: Await<bool>,
    addCandidates: Await<()>,
    connect: ConnectEnv)

  /** The awaits before the punch all let the round go on. */
  ghost predicate Reached(a: InnerArgs, offer: bool, env: InnerEnv) {
    && env.socket == Ready(true) && env.natType.Ready?
    && (a.udp && !a.legacySecure ==> env.udpWait.Ready?)
    && (offer ==> env.exchange.Ready? && (!env.exchange.value ==> env.reconnect == Ready(true)))
    && (a.legacySecure && !(offer && env.exchange == Ready(true)) ==> env.legacy == Ready(true))
  }

  /** The peer answered with an address, and names a relay server that works. */
  ghost predicate RelayableAnswer(env: InnerEnv, msg: Msg) {
    && msg.Punched? && msg.port && msg.relayServer && PunchDecidedBy(env.punch, Answered(msg))
    && env.setRemote.Ready? && env.addCandidates.Ready? && RelayWorks(env.connect) && env.connect.secure == Ready(true)
  }

  /** After a punch response: what `connect` is given. */
  function ConnectArgsFor(a: InnerArgs, webrtc: bool, msg: Msg): ConnectArgs
    requires msg.Punched?
  {
    ConnectArgs(a.forceRelay, msg.relayServer, a.tcpPunch && !webrtc, a.udp && msg.udp, a.v6 && msg.v6)
  }

  /** What a punch response leads to; `won` is what the race inside `connect` came to. */
  ghost predicate PunchedOutcome(a: InnerArgs, webrtc: bool, msg: Msg, env: InnerEnv, won: Outcome, r: Outcome)
    requires msg.Punched?
  {
    var adopting := webrtc && msg.answer;
    var args := ConnectArgsFor(a, webrtc, msg);
    if adopting && (env.setRemote.Cancelled? || (env.setRemote.value && env.addCandidates.Cancelled?)) then r.Dropped?
    else if !msg.port then r.Errored?
    else
      && KeepsTheWin(args, env.connect, won, r)
      && (env.connect.natType.Ready? ==> DirectOutcome(args, adopting && env.setRemote.value, env.connect, won))
      && (r.Returned? && r.conn.typ.Relay? ==> msg.relayServer)
  }

  /** What the punch loop's exit leads to. */
  ghost predicate ExitOutcome(a: InnerArgs, webrtc: bool, exit: PunchExit, env: InnerEnv, won: Outcome, r: Outcome) {
    match exit
    case NoAnswer => r.Errored?
    case Broken => r.Errored?
    case Left => r.Dropped?
    case Relayed(relay) =>
      && KeepsTheRelayWin(relay, won, r)
      && (RelayRaced(webrtc, a.v6, relay) ==>
            RelayOutcome(a.policyRelay, webrtc && relay.answer && relay.setRemote == Ready(true), RelayKinds(a.ws, a.v6, relay), relay, won))
    case Answered(msg) => msg.Punched? && PunchedOutcome(a, webrtc, msg, env, won, r)
  }

  /** Which transports a round may come back with, as far as the flags say. */
  predicate InnerPermits(a: InnerArgs, webrtc: bool, t: Transport) {
    match t
    case Tcp => a.tcpPunch && !a.forceRelay && !webrtc
    case Udp => a.udp && !a.forceRelay
    case IPv6 => a.v6
    case WebRtc => webrtc
    case WebSocket => a.ws
    case Relay => true
  }

  /** What a whole round comes to: WebRTC takes part only where the key exchange was completed. */
  ghost predicate InnerOutcome(a: InnerArgs, offer: bool, env: InnerEnv, won: Outcome, r: Outcome) {
    if !Reached(a, offer, env) then !r.Returned?
    else forall exit :: PunchDecidedBy(env.punch, exit) ==> ExitOutcome(a, offer && env.exchange == Ready(true), exit, env, won, r)
  }

  /** From its first poll on, `_start_inner` keeps the offerer in a guard that its scope drops. */
  method StartInner(a: InnerArgs, offerer: PeerConnection?, env: InnerEnv) returns (r: Outcome, ghost won: Outcome)
    requires offerer != null ==> !offerer.closed
    modifies if offerer == null then {} else {offerer}
    ensures Accounted(offerer, r)
    ensures r.Returned? ==> Honest(r.conn)
    ensures r.Returned? && a.forceRelay && !a.v6 ==> !Classic(r.conn.typ)
    ensures InnerOutcome(a, offerer != null, env, won, r)
    ensures r.Returned? ==> InnerPermits(a, offerer != null && env.exchange == Ready(true), r.conn.typ)
    // With a relay that works, an answered round does not fail.
    ensures Reached(a, offerer != null, env) && (exists msg :: RelayableAnswer(env, msg)) ==> !r.Errored?
  {
    if offerer == null {
      r, won := InnerBody(a, null, env);
    } else {
      var guard := new OffererGuard(offerer);
      r, won := InnerBody(a, guard, env);
      guard.Drop();
    }
  }

  method InnerBody(a: InnerArgs, guard: OffererGuard?, env: InnerEnv) returns (r: Outcome, ghost won: Outcome)
    requires guard != null ==> guard.stream != null && !guard.stream.closed
    modifies guard, if guard != null && guard.stream != null then {guard.stream} else {}
    ensures guard == null ==> !(r.Returned? && r.conn.typ.WebRtc?)
    ensures guard != null ==> Handed(guard, old(guard.stream), r)
    ensures r.Returned? ==> Honest(r.conn)
    ensures r.Returned? && a.forceRelay && !a.v6 ==> !Classic(r.conn.typ)
    ensures InnerOutcome(a, guard != null, env, won, r)
    ensures r.Returned? ==> InnerPermits(a, guard != null && env.exchange == Ready(true), r.conn.typ)
    ensures Reached(a, guard != null, env) && (exists msg :: RelayableAnswer(env, msg)) ==> !r.Errored?
  {
    var stop := Rendezvous(a, guard, env);
    won := Dropped;
    if stop.Some? {
      return stop.value, won;
    }
    var offer := guard != null && guard.stream != null;
    var exit := Punch(env.punch);
    forall other | PunchDecidedBy(env.punch, other)
      ensures other == exit
    {
      PunchUnique(env.punch, other, exit);
    }
    match exit {
      case Left => r := Dropped;
      case Broken => r := Errored;
      case Relayed(relay) =>
        r, won := RelayPath(a.policyRelay, a.ws, a.v6, if offer then guard else null, relay);
      case NoAnswer => r := Errored;
      case Answered(msg) => r, won := AfterPunch(a, if offer then guard else null, msg, env);
    }
  }

  /**
   Up to the punch request.  When the server does not complete the key exchange the offerer is dropped
   and the round goes on without WebRTC, on a fresh socket.
   */
  method Rendezvous(a: InnerArgs, guard: OffererGuard?, env: InnerEnv) returns (stop: Option<Outcome>)
    requires guard != null ==> guard.stream != null && !guard.stream.closed
    modifies guard, if guard != null && guard.stream != null then {guard.stream} else {}
    ensures stop.Some? ==> !stop.value.Returned?
    ensures guard != null ==> if guard.stream == null then old(guard.stream).closed
                              else guard.stream == old(guard.stream) && !guard.stream.closed
    ensures guard != null && stop.None? ==> (guard.stream != null <==> env.exchange == Ready(true))
    ensures stop.None? <==> Reached(a, guard != null, env)
  {
    if env.socket.Cancelled? {
      return Some(Dropped);
    } else if !env.socket.value {
      return Some(Errored);
    } else if env.natType.Cancelled? {
      return Some(Dropped);
    }
    var exchanged := false;
    if guard != null {
      if env.exchange.Cancelled? {
        return Some(Dropped);
      } else if env.exchange.value {
        exchanged := true;
      } else {
        guard.Drop();
        if env.reconnect.Cancelled? {
          return Some(Dropped);
        } else if !env.reconnect.value {
          return Some(Errored);
        }
      }
    }
    if !exchanged && a.legacySecure {
      if env.legacy.Cancelled? {
        return Some(Dropped);
      } else if !env.legacy.value {
        return Some(Errored);
      }
    }
    // A token or switch code goes straight to the punch; otherwise the UDP test is given time.
    stop := if a.udp && !a.legacySecure && env.udpWait.Cancelled? then Some(Dropped) else None;
  }

  /** After a punch response: the answer is applied, and `connect` takes over. */
  method AfterPunch(a: InnerArgs, guard: OffererGuard?, msg: Msg, env: InnerEnv) returns (r: Outcome, ghost won: Outcome)
    requires msg.Punched? && (guard != null ==> guard.stream != null && !guard.stream.closed)
    modifies guard, if guard != null && guard.stream != null then {guard.stream} else {}
    ensures guard != null ==> guard.stream == null
    ensures Accounted(if guard == null then null else old(guard.stream), r)
    ensures r.Returned? ==> Honest(r.conn)
    ensures r.Returned? && a.forceRelay ==> !Classic(r.conn.typ)
    ensures PunchedOutcome(a, guard != null, msg, env, won, r)
    ensures r.Returned? ==> InnerPermits(a, guard != null, r.conn.typ)
    ensures RelayableAnswer(env, msg) ==> !r.Errored?
  {
    won := Dropped;
    var pc := if guard == null then null else guard.stream;
    var adopted := NotAdopted;
    if guard != null {
      if msg.answer {
        adopted := Adopt(guard, env.setRemote, env.addCandidates);
      } else {
        guard.Drop();
      }
    }
    if adopted.Abandoned? {
      return Dropped, won;
    }
    if !msg.port {
      // Adopted out of its guard and about to be given up: closed by hand.
      if adopted.Adopted? {
        pc.CloseDetached();
      }
      return Errored, won;
    }
    r, won := Connect(ConnectArgsFor(a, guard != null, msg), if adopted.Adopted? then pc else null, env.connect);
  }

  // ----- _start -----

  datatype StartArgs = StartArgs(
    incomingOnly: bool,
    byAddress: bool,
    forceRelay: bool,
    policyRelay: bool,
    ws: bool,
    tcpPunch: bool,
    legacySecure: bool,
    udpPunch: bool,
    v6Punch: bool,
    wantsOfferer: bool)

  /** Whose turn it is to be looked at in the outer race. */
  datatype Turn = Preferred(at: int) | Fallback(at: int) | Waiting(at: int)

  datatype StartEnv = StartEnv(
    address: Await<bool>,
    prelude: Await<()>,
    udpBinds: bool,
    v6Binds: bool,
    offererBuilt: Await<bool>,
    preferred: InnerEnv,
    fallback: InnerEnv,
    turns: seq<Turn>,
    window: int)

  /** What a finished attempt reports; one that was dropped reports nothing anybody listens for. */
  function Heard(id: nat, o: Outcome, at: int): Event<Conn> {
    match o
    case Returned(conn) => Done(id, Ok(conn), at)
    case Errored => Done(id, Err("failed"), at)
    case Dropped => Done(id + 2, Err("dropped"), at)
  }

  /** The outer schedule: the preferred request is attempt `base`, the fallback the next one. */
  function Turns(base: nat, preferred: Outcome, fallback: Outcome, turns: seq<Turn>): (h: seq<Event<Conn>>)
    ensures |h| == |turns|
    ensures forall i :: 0 <= i < |h| && h[i].Done? && h[i].report.Ok? ==>
      Returned(h[i].report.conn) == if h[i].id == base then preferred else fallback
  {
    seq(|turns|, i requires 0 <= i < |turns| =>
      match turns[i]
      case Preferred(at) => Heard(base, preferred, at)
      case Fallback(at) => Heard(base + 1, fallback, at)
      case Waiting(at) => Clock(at))
  }

  /** The set-up gets as far as sending requests. */
  predicate Requests(a: StartArgs, env: StartEnv) {
    !a.incomingOnly && !a.byAddress && env.prelude.Ready? && (a.wantsOfferer ==> env.offererBuilt.Ready?)
  }

  predicate Offers(a: StartArgs, env: StartEnv) {
    Requests(a, env) && a.wantsOfferer && env.offererBuilt == Ready(true)
  }

  /** A second request is worth sending: there is something besides a TCP punch in the first. */
  predicate Doubles(a: StartArgs, env: StartEnv) {
    Requests(a, env) && !a.forceRelay && a.tcpPunch && (Offers(a, env) || (a.udpPunch && env.udpBinds))
  }

  function FirstArgs(a: StartArgs, env: StartEnv): InnerArgs {
    InnerArgs(a.forceRelay, a.policyRelay, a.ws, a.tcpPunch, a.legacySecure,
              a.udpPunch && !a.forceRelay && env.udpBinds, a.v6Punch && !a.forceRelay && env.v6Binds)
  }

  /** The second request is for a TCP punch only: it carries no offer and no sockets. */
  function SecondArgs(a: StartArgs, env: StartEnv): InnerArgs {
    FirstArgs(a, env).(udp := false, v6 := false)
  }

  /** The offering request's turn comes before the race is over without it. */
  ghost predicate InTime(fallback: Outcome, turns: seq<Turn>, window: int) {
    exists w :: 0 <= w < |turns| && turns[w].Preferred?
                && forall j :: 0 <= j < w ==> !CommitsAt(Race(1, window, Direct), Turns(0, Dropped, fallback, turns), j)
  }

  /** The same request, dropped while it waits: at which await makes no difference to what is left of it. */
  function Interrupted(env: InnerEnv): InnerEnv { env.(socket := Cancelled) }

  /** What the first request meets: one that carries an offer and is not in time is dropped. */
  ghost function FirstEnv(a: StartArgs, env: StartEnv, fallback: Outcome): InnerEnv {
    if Doubles(a, env) && Offers(a, env) && !InTime(fallback, env.turns, env.window) then Interrupted(env.preferred)
    else env.preferred
  }

  /** The two requests came to what their environments say. */
  ghost predicate RequestsCameTo(a: StartArgs, env: StartEnv, preferred: Outcome, fallback: Outcome) {
    && (Requests(a, env) ==>
          exists won :: InnerOutcome(FirstArgs(a, env), Offers(a, env), FirstEnv(a, env, fallback), won, preferred))
    && (Doubles(a, env) ==> exists won :: InnerOutcome(SecondArgs(a, env), false, env.fallback, won, fallback))
    && (preferred.Returned? ==> Honest(preferred.conn)) && (fallback.Returned? ==> Honest(fallback.conn))
    && (fallback.Returned? ==> !fallback.conn.typ.Udp? && !fallback.conn.typ.IPv6? && !fallback.conn.typ.WebRtc?)
  }

  /** Which transports `_start` may come back with. */
  predicate StartPermits(a: StartArgs, env: StartEnv, t: Transport) {
    match t
    case Tcp => a.byAddress || (a.tcpPunch && !a.forceRelay)
    case Udp => a.udpPunch && env.udpBinds && !a.forceRelay
    case IPv6 => a.v6Punch && env.v6Binds && !a.forceRelay
    case WebRtc => Offers(a, env)
    case WebSocket => a.ws
    case Relay => true
  }

  /** The result is the first request's, or what the race between the two makes of them. */
  ghost predicate StartOutcome(a: StartArgs, env: StartEnv, preferred: Outcome, fallback: Outcome, r: Outcome) {
    if !Doubles(a, env) then r == preferred
    else if Offers(a, env) then RaceOutcome(Race(1, env.window, Direct), Turns(0, preferred, fallback, env.turns), r)
    else SelectOutcome(2, Turns(1, preferred, fallback, env.turns), r)
  }

  /**
   `_start`.  `preferred` is what the request carrying the offer came to, `fallback` the second one; an
   offering request whose turn did not come before the race was over has been dropped.
   */
  method Start(a: StartArgs, env: StartEnv)
    returns (r: Outcome, pc: PeerConnection?, ghost preferred: Outcome, ghost fallback: Outcome)
    ensures pc != null <==> Offers(a, env)
    ensures pc != null ==> fresh(pc)
    ensures r.Returned? ==> Honest(r.conn)
    ensures r.Returned? ==> StartPermits(a, env, r.conn.typ)
    // A forced relay leaves a punched transport only to a peer reached by address.
    ensures r.Returned? && a.forceRelay ==> (Classic(r.conn.typ) <==> a.byAddress)
    ensures a.byAddress && !a.incomingOnly && env.address == Ready(true) ==> r == Returned(Conn(Tcp, true, []))
    ensures RequestsCameTo(a, env, preferred, fallback) && StartOutcome(a, env, preferred, fallback, r)
    // The peer connection stays open exactly when the offering request came back with WebRTC.
    ensures Accounted(pc, preferred)
    ensures Accounted(pc, r) <==> !(preferred.Returned? && preferred.conn.typ.WebRtc?) || r == preferred
    // Without a race there is nothing to lose it to; in one it is lost exactly when it is overtaken.
    ensures a.byAddress || a.forceRelay || !a.tcpPunch || !a.wantsOfferer ==> Accounted(pc, r)
    ensures Accounted(pc, r) <==> !LosesOffer(a, env, preferred, fallback)
  {
    pc := null;
    r := Errored;
    if a.incomingOnly || a.byAddress {
      if !a.incomingOnly {
        r := if env.address.Cancelled? then Dropped
             else if env.address.value then Returned(Conn(Tcp, true, [])) else Errored;
      }
      preferred, fallback := r, Dropped;
      return;
    }
    if env.prelude.Cancelled? || (a.wantsOfferer && env.offererBuilt.Cancelled?) {
      return Dropped, pc, Dropped, Dropped;
    }
    if a.wantsOfferer && env.offererBuilt.value {
      pc := new PeerConnection();
    }
    r, preferred, fallback := SendRequests(a, pc, env);
  }

  /** The offering request of two returned WebRTC and was then overtaken. */
  ghost predicate LosesOffer(a: StartArgs, env: StartEnv, preferred: Outcome, fallback: Outcome) {
    && Doubles(a, env) && Offers(a, env)
    && preferred.Returned? && preferred.conn.typ.WebRtc? && Overtaken(Turns(0, preferred, fallback, env.turns), env.window)
  }

  /** The one or two requests, and the race between them. */
  method SendRequests(a: StartArgs, pc: PeerConnection?, env: StartEnv)
    returns (r: Outcome, ghost preferred: Outcome, ghost fallback: Outcome)
    requires Requests(a, env) && (pc != null <==> Offers(a, env)) && (pc != null ==> !pc.closed)
    modifies if pc == null then {} else {pc}
    ensures r.Returned? ==> Honest(r.conn)
    ensures r.Returned? && a.forceRelay ==> !Classic(r.conn.typ)
    ensures r.Returned? ==> StartPermits(a, env, r.conn.typ)
    ensures RequestsCameTo(a, env, preferred, fallback) && StartOutcome(a, env, preferred, fallback, r)
    ensures Accounted(pc, preferred)
    ensures r.Returned? && r.conn.typ.WebRtc? ==> r == preferred
    ensures preferred.Returned? && preferred.conn.typ.WebRtc? ==> (r == preferred <==> !LosesOffer(a, env, preferred, fallback))
  {
    var args := FirstArgs(a, env);
    ghost var won, won2;
    fallback := Dropped;
    if a.forceRelay || (!args.udp && pc == null) || !a.tcpPunch {
      r, won := StartInner(args, pc, env.preferred);
      preferred := r;
      assert InnerOutcome(args, Offers(a, env), FirstEnv(a, env, fallback), won, preferred);
      return;
    }
    // The requests run side by side; which is told first is of no consequence here.
    var second, inTime;
    second, won2 := StartInner(SecondArgs(a, env), null, env.fallback);
    fallback := second;
    inTime := ReportsInTime(second, env.turns, env.window);
    var first;
    first, won := StartInner(args, pc, if pc != null && !inTime then Interrupted(env.preferred) else env.preferred);
    preferred := first;
    assert InnerOutcome(args, Offers(a, env), FirstEnv(a, env, fallback), won, preferred);
    r := OuterRace(pc != null, first, second, env.turns, env.window);
    if pc != null {
      if first.Returned? {
        InTimeIsHeard(first, second, env.turns, env.window);
      }
      LostExactly(first, second, env.turns, env.window, r);
    }
  }

  /** Runs the race as it would go without the offering request, up to its end. */
  method ReportsInTime(fallback: Outcome, turns: seq<Turn>, window: int) returns (inTime: bool)
    ensures inTime <==> InTime(fallback, turns, window)
  {
    var h := Turns(0, Dropped, fallback, turns);
    var verdict, at := Run(Race(1, window, Direct), h);
    for w := 0 to at
      invariant forall i :: 0 <= i < w ==> !turns[i].Preferred?
    {
      if turns[w].Preferred? {
        return true;
      }
    }
    inTime := false;
  }

  /** A request that is in time and reports is heard while the race is on. */
  lemma InTimeIsHeard(preferred: Outcome, fallback: Outcome, turns: seq<Turn>, window: int)
    requires InTime(fallback, turns, window) && preferred.Returned?
    ensures HeardInTime(Turns(0, preferred, fallback, turns), window)
  {
    var h, silent := Turns(0, preferred, fallback, turns), Turns(0, Dropped, fallback, turns);
    var race := Race(1, window, Direct);
    var v :| 0 <= v < |turns| && turns[v].Preferred? && forall j :: 0 <= j < v ==> !CommitsAt(race, silent, j);
    var w := FirstTurn(turns, v);
    assert forall j :: 0 <= j < w ==> h[j] == silent[j];
    assert h[..w] == silent[..w];
    forall j | 0 <= j < w
      ensures !CommitsAt(race, h, j)
    {
      CommitsLocal(race, h, silent, w, j);
    }
    Silent(h, w, 0);
    assert HeardAt(h, window, w);
  }

  lemma {:induction false} FirstTurn(turns: seq<Turn>, v: nat) returns (w: nat)
    requires v < |turns| && turns[v].Preferred?
    ensures w <= v && turns[w].Preferred? && forall j :: 0 <= j < w ==> !turns[j].Preferred?
  {
    if j: nat :| j < v && turns[j].Preferred? {
      w := FirstTurn(turns, j);
    } else {
      w := v;
    }
  }

  lemma {:induction false} Silent(h: seq<Event<Conn>>, k: nat, id: nat)
    requires k <= |h| && forall j :: 0 <= j < k && h[j].Done? ==> h[j].id != id
    ensures id !in Reported(h, k)
  {
    if k > 0 {
      Silent(h, k - 1, id);
    }
  }

  method OuterRace(offer: bool, preferred: Outcome, fallback: Outcome, turns: seq<Turn>, window: int) returns (r: Outcome)
    ensures offer ==> RaceOutcome(Race(1, window, Direct), Turns(0, preferred, fallback, turns), r)
    ensures !offer ==> SelectOutcome(2, Turns(1, preferred, fallback, turns), r)
    ensures r.Returned? ==> r == preferred || r == fallback
    // A direct result of the offering request, once heard, is what the race returns.
    ensures offer && r.Returned? && preferred.Returned? && preferred.conn.direct ==>
      r == preferred || exists k :: Unheard(Turns(0, preferred, fallback, turns), window, k)
  {
    if offer {
      var h := Turns(0, preferred, fallback, turns);
      var race := Race(1, window, Direct);
      var verdict, at := Run(race, h);
      if verdict.None? {
        return Dropped;
      }
      SucceedsIffSomeoneDid(race, h, at, verdict.value);
      r := Settle(verdict.value);
      if r.Returned? && preferred.Returned? && preferred.conn.direct && r != preferred {
        DirectHeardWins(race, h, at, verdict.value, preferred.conn);
        assert Unheard(h, window, at);
      }
    } else {
      var h := Turns(1, preferred, fallback, turns);
      var first, at := SelectOk(2, h);
      if first.None? {
        return Dropped;
      }
      r := if first.value.Ok? then Returned(first.value.conn) else Errored;
    }
  }

  /** The race stops at k without having heard of the offering request. */
  ghost predicate Unheard(h: seq<Event<Conn>>, window: int, k: nat) {
    k < |h| && FirstCommit(Race(1, window, Direct), h, k) && 0 !in Reported(h, k + 1)
  }

  lemma DirectHeardWins(race: Race<Conn>, h: seq<Event<Conn>>, k: nat, v: Verdict<Conn>, conn: Conn)
    requires k < |h| && FirstCommit(race, h, k) && Delivers(race, h, k, v) && race.isP2p == Direct
    requires conn.direct && forall i :: 0 <= i < |h| && h[i].Done? && h[i].id == 0 ==> h[i].report == Ok(conn)
    ensures 0 in Reported(h, k + 1) ==> v == Connected(conn)
  {
    if 0 in Reported(h, k + 1) {
      var j := FirstReport(h, k + 1, 0);
      DirectWinsAtOnce(race, h, k, v, j);
    }
  }

  lemma {:induction false} FirstReport(h: seq<Event<Conn>>, k: nat, id: nat) returns (j: nat)
    requires k <= |h| && id in Reported(h, k)
    ensures j < k && h[j].Done? && h[j].id == id && id !in Reported(h, j)
  {
    if id in Reported(h, k - 1) {
      j := FirstReport(h, k - 1, id);
    } else {
      j := k - 1;
    }
  }

  /** The offering request reports while the race is still on. */
  ghost predicate HeardInTime(h: seq<Event<Conn>>, window: int) {
    exists w :: 0 <= w < |h| && HeardAt(h, window, w)
  }

  ghost predicate HeardAt(h: seq<Event<Conn>>, window: int, w: nat)
    requires w < |h|
  {
    Completes(Race(1, window, Direct), h, w) && h[w].id == 0 && forall j :: 0 <= j < w ==> !CommitsAt(Race(1, window, Direct), h, j)
  }

  /** Entry j lets the connection held since entry w go to the caller: its window has run out, or the other request failed. */
  predicate Releases(h: seq<Event<Conn>>, window: int, w: nat, j: nat)
    requires w < |h| && j < |h|
  {
    (h[j].Clock? && h[w].at + window <= h[j].at) || (h[j].Done? && h[j].id == 1 && h[j].report.Err?)
  }

  /** The second request succeeds between entries w and j. */
  ghost predicate SucceedsBetween(h: seq<Event<Conn>>, w: nat, j: nat) {
    exists i :: w < i < j && i < |h| && h[i].Done? && h[i].id == 1 && h[i].report.Ok?
  }

  /**
   The offering request's relayed connection comes first, is held, and before anything releases it the
   second request succeeds, or the caller gives up.
   */
  ghost predicate Overtaken(h: seq<Event<Conn>>, window: int) {
    exists w :: 0 <= w < |h| && OvertakenAt(h, window, w)
  }

  ghost predicate OvertakenAt(h: seq<Event<Conn>>, window: int, w: nat)
    requires w < |h|
  {
    && RelayAt(Race(1, window, Direct), h, w) && h[w].id == 0 && 1 !in Reported(h, w)
    && forall j :: w < j < |h| && Releases(h, window, w, j) ==> SucceedsBetween(h, w, j)
  }

  /** Once the second request has reported after the first, the race is over. */
  lemma SecondReportCommits(h: seq<Event<Conn>>, window: int, w: nat, j: nat) returns (i: nat)
    requires w < j < |h| && Completes(Race(1, window, Direct), h, w) && h[w].id == 0 && 1 !in Reported(h, w)
    requires h[j].Done? && h[j].id == 1
    ensures w < i <= j && CommitsAt(Race(1, window, Direct), h, i) && Completes(Race(1, window, Direct), h, i) && h[i].id == 1
  {
    ReportedStays(h, j, j + 1);
    i := FirstReport(h, j + 1, 1);
    if i < w {
      ReportedStays(h, i, w);
    }
    ReportedStays(h, w, i + 1);
    ReportedStays(h, i, i + 1);
  }

  /** A connection held since entry w is the first relayed one, and the race goes on. */
  lemma HeldFirst(h: seq<Event<Conn>>, window: int, w: nat)
    requires w < |h| && RelayAt(Race(1, window, Direct), h, w) && h[w].id == 0 && 1 !in Reported(h, w)
    ensures FirstRelay(Race(1, window, Direct), h, w) && !CommitsAt(Race(1, window, Direct), h, w)
  {
    assert 1 !in Reported(h, w + 1);
    forall j | 0 <= j < w
      ensures !RelayAt(Race(1, window, Direct), h, j)
    {
      if RelayAt(Race(1, window, Direct), h, j) {
        ReportedStays(h, j, w);
      }
    }
  }

  /**
   When the race returns something else than the offering request's connection, although that request
   reported in time: exactly when it was overtaken.
   */
  lemma LostExactly(preferred: Outcome, fallback: Outcome, turns: seq<Turn>, window: int, r: Outcome)
    requires RaceOutcome(Race(1, window, Direct), Turns(0, preferred, fallback, turns), r)
    requires fallback.Returned? ==> !fallback.conn.typ.WebRtc?
    ensures var h := Turns(0, preferred, fallback, turns);
            preferred.Returned? && preferred.conn.typ.WebRtc? && HeardInTime(h, window) ==>
              (r == preferred <==> !Overtaken(h, window))
  {
    var h := Turns(0, preferred, fallback, turns);
    if preferred.Returned? && preferred.conn.typ.WebRtc? && HeardInTime(h, window) {
      var w :| 0 <= w < |h| && HeardAt(h, window, w);
      assert h[w].report == Ok(preferred.conn);
      assert forall i :: 0 <= i < |h| && h[i].Done? && h[i].id == 1 && h[i].report.Ok? ==> !h[i].report.conn.typ.WebRtc?;
      OnlyReport(h, window, w);
      ReturnedOrOvertaken(h, window, r, w);
    }
  }

  lemma OnlyReport(h: seq<Event<Conn>>, window: int, w: nat)
    requires w < |h| && HeardAt(h, window, w)
    ensures Overtaken(h, window) <==> OvertakenAt(h, window, w)
  {
    if v :| 0 <= v < |h| && OvertakenAt(h, window, v) {
      CompletesOnce(Race(1, window, Direct), h, v, w);
    }
  }

  lemma ReturnedOrOvertaken(h: seq<Event<Conn>>, window: int, r: Outcome, w: nat)
    requires RaceOutcome(Race(1, window, Direct), h, r) && w < |h| && HeardAt(h, window, w) && h[w].report.Ok? && h[w].report.conn.typ.WebRtc?
    requires forall i :: 0 <= i < |h| && h[i].Done? && h[i].id == 1 && h[i].report.Ok? ==> !h[i].report.conn.typ.WebRtc?
    ensures r == Returned(h[w].report.conn) <==> !OvertakenAt(h, window, w)
  {
    if h[w].report.conn.direct || 1 in Reported(h, w) {
      HeardLast(h, window, r, w);
    } else {
      HeldFirst(h, window, w);
      if OvertakenAt(h, window, w) {
        OvertakenLoses(h, window, r, w);
      } else {
        ReleasedWins(h, window, r, w);
      }
    }
  }

  /** Heard with nothing left to wait for, or direct: returned at once. */
  lemma HeardLast(h: seq<Event<Conn>>, window: int, r: Outcome, w: nat)
    requires RaceOutcome(Race(1, window, Direct), h, r) && w < |h| && HeardAt(h, window, w) && h[w].report.Ok?
    requires h[w].report.conn.direct || 1 in Reported(h, w)
    ensures r == Returned(h[w].report.conn) && !OvertakenAt(h, window, w)
  {
    ReportedStays(h, w, w + 1);
    assert Reported(h, w) <= Reported(h, w + 1);
    assert CommitsAt(Race(1, window, Direct), h, w);
  }

  /** A race that goes on after entry w ends with the second request's success, or does not end. */
  lemma OvertakenLoses(h: seq<Event<Conn>>, window: int, r: Outcome, w: nat)
    requires RaceOutcome(Race(1, window, Direct), h, r) && w < |h| && HeardAt(h, window, w) && OvertakenAt(h, window, w)
    requires !CommitsAt(Race(1, window, Direct), h, w)
    requires forall i :: 0 <= i < |h| && h[i].Done? && h[i].id == 1 && h[i].report.Ok? ==> h[i].report.conn != h[w].report.conn
    ensures r != Returned(h[w].report.conn)
  {
    if r.Returned? {
      var k, v :| 0 <= k < |h| && FirstCommit(Race(1, window, Direct), h, k) && Delivers(Race(1, window, Direct), h, k, v) && r == Settle(v);
      assert w < k;
      OvertakenEnd(h, window, w, k);
    }
  }

  lemma OvertakenEnd(h: seq<Event<Conn>>, window: int, w: nat, k: nat)
    requires w < k < |h| && OvertakenAt(h, window, w) && FirstCommit(Race(1, window, Direct), h, k)
    ensures h[k].Done? && h[k].id == 1 && h[k].report.Ok?
  {
    HeldFirst(h, window, w);
    ReportedStays(h, w, k);
    if SucceedsBetween(h, w, k) {
      var i :| w < i < k && h[i].Done? && h[i].id == 1 && h[i].report.Ok?;
      var c := SecondReportCommits(h, window, w, i);
      assert false;
    } else {
      assert !Releases(h, window, w, k);
    }
  }

  /** A release that no success of the second request came before ends the race, at the latest. */
  lemma ReleaseCommits(h: seq<Event<Conn>>, window: int, w: nat, j: nat) returns (c: nat)
    requires w < j < |h| && FirstRelay(Race(1, window, Direct), h, w) && h[w].id == 0 && 1 !in Reported(h, w)
    requires Releases(h, window, w, j) && !SucceedsBetween(h, w, j)
    ensures w < c <= j && CommitsAt(Race(1, window, Direct), h, c)
    ensures forall i :: w < i <= c && h[i].Done? && h[i].id == 1 ==> h[i].report.Err?
  {
    c := j;
    if h[j].Done? {
      c := SecondReportCommits(h, window, w, j);
    }
  }

  /** A race that ends after entry w without a success of the second request returns what was held. */
  lemma HeldReturned(h: seq<Event<Conn>>, window: int, w: nat, k: nat, v: Verdict<Conn>)
    requires w < k < |h| && FirstRelay(Race(1, window, Direct), h, w) && h[w].id == 0
    requires FirstCommit(Race(1, window, Direct), h, k) && Delivers(Race(1, window, Direct), h, k, v)
    requires h[k].Done? && h[k].id == 1 ==> h[k].report.Err?
    ensures v == Connected(h[w].report.conn)
  {
    ReportedStays(h, w, k);
    assert !(h[k].Done? && h[k].report.Ok?);
    var r :| 0 <= r < k && FirstRelay(Race(1, window, Direct), h, r) && v == Connected(h[r].report.conn);
    assert r == w;
  }

  lemma ReleasedWins(h: seq<Event<Conn>>, window: int, r: Outcome, w: nat)
    requires RaceOutcome(Race(1, window, Direct), h, r) && w < |h| && HeardAt(h, window, w) && !OvertakenAt(h, window, w)
    requires FirstRelay(Race(1, window, Direct), h, w) && !CommitsAt(Race(1, window, Direct), h, w) && 1 !in Reported(h, w)
    ensures r == Returned(h[w].report.conn)
  {
    var j :| w < j < |h| && Releases(h, window, w, j) && !SucceedsBetween(h, w, j);
    var c := ReleaseCommits(h, window, w, j);
    var k, v :| 0 <= k < |h| && FirstCommit(Race(1, window, Direct), h, k) && Delivers(Race(1, window, Direct), h, k, v) && r == Settle(v);
    HeldReturned(h, window, w, k, v);
  }

  // ----- When one attempt alone comes up -----

  /** The preferring race delivers the only attempt that comes up: at once if direct, otherwise once all have reported. */
  lemma SoleWinner(race: Race<Conn>, h: seq<Event<Conn>>, id: nat, conn: Conn, r: Outcome)
    requires RaceOutcome(race, h, r) && race.isP2p == Direct && id <= race.n && id in Reported(h, |h|)
    requires forall i :: 0 <= i < |h| && h[i].Done? && h[i].id == id ==> h[i].report == Ok(conn)
    requires forall i :: 0 <= i < |h| && h[i].Done? && h[i].id != id ==> h[i].report.Err?
    requires conn.direct || AllReported(race, h, |h|)
    ensures r == Returned(conn)
  {
    var j := FirstReport(h, |h|, id);
    if conn.direct {
      assert CommitsAt(race, h, j);
    } else {
      EveryRunEnds(race, h);
    }
    var k, v :| 0 <= k < |h| && FirstCommit(race, h, k) && Delivers(race, h, k, v) && r == Settle(v);
    SucceedsIffSomeoneDid(race, h, k, v);
    if v.Failed? {
      var i := FirstReport(h, k + 1, id);
      assert Completes(race, h, i);
      assert false;
    }
  }

  /** So does plain `select_ok`. */
  lemma SoleFirst(n: nat, h: seq<Event<Conn>>, id: nat, conn: Conn, r: Outcome)
    requires SelectOutcome(n, h, r) && 1 <= id <= n && id in Reported(h, |h|)
    requires forall i :: 0 <= i < |h| && h[i].Done? && h[i].id == id ==> h[i].report == Ok(conn)
    requires forall i :: 0 <= i < |h| && h[i].Done? && h[i].id != id ==> h[i].report.Err?
    ensures r == Returned(conn)
  {
    var j := FirstReport(h, |h|, id);
    assert SelectsAt(n, h, j);
    var k :| 0 <= k < |h| && SelectsAt(n, h, k) && (forall i :: 0 <= i < k ==> !SelectsAt(n, h, i))
      && r == (if h[k].report.Ok? then Returned(h[k].report.conn) else Errored);
    assert k <= j;
    if h[k].report.Err? {
      FailsAfter(n, h, id, j, k);
    }
  }

  /** `select_ok` does not fail before an attempt's first report, nor at it if it succeeds. */
  lemma FailsAfter(n: nat, h: seq<Event<Conn>>, id: nat, j: nat, k: nat)
    requires 1 <= id <= n && k <= j < |h| && id !in Reported(h, j) && h[j].Done? && h[j].id == id && h[j].report.Ok?
    requires SelectsAt(n, h, k)
    ensures h[k].report.Ok?
  {
    if h[k].report.Err? {
      assert id in Reported(h, k + 1);
      ReportedGrows(h, k + 1, j);
      assert false;
    }
  }

  lemma {:induction false} ReportedGrows(h: seq<Event<Conn>>, k: nat, n: nat)
    requires k <= n <= |h|
    ensures Reported(h, k) <= Reported(h, n)
  {
    if k < n {
      ReportedGrows(h, k, n - 1);
    }
  }

  /** The schedule of such a race. */
  lemma OnlyUpSchedule(kinds: seq<Transport>, raws: seq<Raw>, id: nat)
    requires OnlyUp(raws, id) && (KindOf(kinds, id).WebRtc? ==> forall i :: 0 <= i < |raws| && raws[i].Report? && raws[i].ok ==> raws[i].sample == Some(false))
    ensures var h := Schedule(kinds, raws);
      && id in Reported(h, |h|)
      && (forall i :: 0 <= i < |h| && h[i].Done? && h[i].id == id ==> h[i].report == Ok(ConnOf(KindOf(kinds, id), Some(false))))
      && (forall i :: 0 <= i < |h| && h[i].Done? && h[i].id != id ==> h[i].report.Err?)
  {
    var h := Schedule(kinds, raws);
    var i :| 0 <= i < |raws| && raws[i].Report? && raws[i].id == id;
    assert h[i].Done? && h[i].id == id;
    ReportedStays(h, i, |h|);
  }

  /** Attempt `id` of the given kinds alone comes up: plain `select_ok` returns it. */
  lemma KindFirst(kinds: seq<Transport>, raws: seq<Raw>, id: nat, won: Outcome)
    requires FirstOutcome(kinds, raws, won) && OnlyUp(raws, id) && 1 <= id <= |kinds| && !kinds[id - 1].WebRtc?
    ensures won == Returned(ConnOf(kinds[id - 1], None))
  {
    OnlyUpSchedule(kinds, raws, id);
    SoleFirst(|kinds|, Schedule(kinds, raws), id, ConnOf(kinds[id - 1], None), won);
  }

  /** The preferring race does so too, at once or after all have reported. */
  lemma KindPreferred(kinds: seq<Transport>, window: int, raws: seq<Raw>, id: nat, won: Outcome)
    requires PreferringOutcome(kinds, window, raws, won) && OnlyUp(raws, id) && 1 <= id <= |kinds| && !kinds[id - 1].WebRtc?
    requires Classic(kinds[id - 1]) || forall other: nat :: other <= |kinds| ==> HasReported(raws, other)
    ensures won == Returned(ConnOf(kinds[id - 1], None))
  {
    OnlyUpSchedule(kinds, raws, id);
    if !Classic(kinds[id - 1]) {
      EachReported(kinds, raws, |kinds|);
    }
    SoleWinner(Race(|kinds|, window, Direct), Schedule(kinds, raws), id, ConnOf(kinds[id - 1], None), won);
  }

  lemma OnlyPunchUp(a: ConnectArgs, webrtc: bool, env: ConnectEnv, won: Outcome, t: Transport)
    requires DirectOutcome(a, webrtc, env, won) && Punches(a, t) && OnlyUp(env.race, PunchId(a, t))
    ensures won == Returned(Conn(t, true, []))
  {
    var kinds, id := DirectKinds(a), PunchId(a, t);
    assert 1 <= id <= |kinds| && kinds[id - 1] == t;
    if webrtc {
      KindPreferred(kinds, env.window, env.race, id, won);
    } else {
      KindFirst(kinds, env.race, id, won);
    }
  }

  /** WebRTC alone coming up without a relay is what the race comes to, whatever it was raced against. */
  lemma OnlyWebRtcUp(a: ConnectArgs, env: ConnectEnv, won: Outcome, id: nat)
    requires DirectOutcome(a, true, env, won) && OnlyUp(env.race, id)
    requires id == if a.allowTcp || a.udp || a.v6 then 0 else 1
    requires forall i :: 0 <= i < |env.race| && env.race[i].Report? && env.race[i].ok ==> env.race[i].sample == Some(false)
    ensures won == Returned(Conn(WebRtc, true, [Some(false)]))
  {
    var kinds := DirectKinds(a);
    if kinds != [] {
      OnlyUpSchedule(kinds, env.race, 0);
      SoleWinner(Race(|kinds|, env.window, Direct), Schedule(kinds, env.race), 0, ConnOf(WebRtc, Some(false)), won);
    } else {
      OnlyUpSchedule([WebRtc], env.race, 1);
      SoleFirst(1, Schedule([WebRtc], env.race), 1, ConnOf(WebRtc, Some(false)), won);
    }
  }

  /**
   In the relay branch: a v6 connection, if there is one, is attempt 1, and the relay the next one, over
   WebSocket or not as the policy says.  Whichever alone comes up is returned; a relay that is raced
   against WebRTC once all have reported.
   */
  lemma OnlyRelayUp(policyRelay: bool, ws: bool, v6: bool, webrtc: bool, env: RelayEnv, won: Outcome, t: Transport, id: nat)
    requires RelayOutcome(policyRelay, webrtc, RelayKinds(ws, v6, env), env, won) && OnlyUp(env.race, id)
    requires var punched := v6 && env.v6Port && env.v6Connect == Ready(true);
      (t.IPv6? && punched && id == 1) || (t == (if ws then WebSocket else Relay) && id == if punched then 2 else 1)
    requires !t.IPv6? && webrtc && !policyRelay ==>
      forall other: nat :: other <= id ==> HasReported(env.race, other)
    ensures won == Returned(Conn(t, t.IPv6?, []))
  {
    var kinds := RelayKinds(ws, v6, env);
    assert 1 <= id <= |kinds| && kinds[id - 1] == t;
    if !webrtc {
      KindFirst(kinds, env.race, id, won);
    } else if policyRelay {
      KindFirst(kinds + [WebRtc], env.race, id, won);
    } else {
      KindPreferred(kinds, env.window, env.race, id, won);
    }
  }

  lemma EachReported(kinds: seq<Transport>, raws: seq<Raw>, n: nat)
    requires forall other: nat :: other <= n ==> HasReported(raws, other)
    ensures forall other: nat :: other <= n ==> other in Reported(Schedule(kinds, raws), |raws|)
  {
    var h := Schedule(kinds, raws);
    forall other: nat | other <= n
      ensures other in Reported(h, |h|)
    {
      assert HasReported(raws, other);
      var i :| 0 <= i < |raws| && raws[i].Report? && raws[i].id == other;
      assert h[i].Done? && h[i].id == other;
      ReportedStays(h, i, |h|);
    }
  }

  /**
   A whole round: the punch that both sides allow and that alone comes up is what the round returns.  UDP
   and IPv6 take the peer's word as well as ours, TCP is not punched beside an offer.
   */
  lemma RoundReturnsThePunch(a: InnerArgs, webrtc: bool, msg: Msg, env: InnerEnv, won: Outcome, r: Outcome, t: Transport, id: nat)
    requires msg.Punched? && msg.port && PunchedOutcome(a, webrtc, msg, env, won, r)
    requires webrtc && msg.answer ==> env.setRemote.Ready? && env.addCandidates.Ready?
    requires (t.Tcp? && a.tcpPunch && !webrtc) || (t.Udp? && a.udp && msg.udp) || (t.IPv6? && a.v6 && msg.v6)
    requires id == 1 + (if !t.Tcp? && a.tcpPunch && !webrtc then 1 else 0) + (if t.IPv6? && a.udp && msg.udp then 1 else 0)
    requires OnlyUp(env.connect.race, id) && env.connect.natType.Ready? && env.connect.secure == Ready(true) && !a.forceRelay
    ensures r == Returned(Conn(t, true, []))
  {
    PunchReturned(ConnectArgsFor(a, webrtc, msg), webrtc && msg.answer && env.setRemote.value, env.connect, won, r);
  }

  /** What each message does: a refusal ends the round, an answer goes on to connect, a relay is taken, the rest is passed over. */
  lemma MessagesExact(answer: bool, port: bool, relayServer: bool, udp: bool, v6: bool, relay: RelayEnv)
    ensures Decides(Punched(true, answer, port, relayServer, udp, v6, Ready(()))) == Some(Broken)
    ensures var msg := Punched(false, answer, port, relayServer, udp, v6, Ready(())); Decides(msg) == Some(Answered(msg))
    ensures Decides(RelayAnswer(relay)) == Some(Relayed(relay)) && Decides(Candidate).None? && Decides(Unknown).None?
  {
  }

  /**
   The attempts listen three, six and nine seconds: a deciding message that is the first thing to come in
   attempt i, the ones before having heard nothing, ends the loop exactly if it comes in that time, and if
   it does not, and no more is heard, nobody answered.
   */
  lemma AnswerInTime(punch: nat -> Attempt, i: nat, elapsed: int, msg: Msg, exit: PunchExit)
    requires 1 <= i <= 3 && punch(i) == Attempt(Ready(true), [Poll(elapsed, Ready(Some(msg)))]) && Decides(msg) == Some(exit)
    requires forall j: nat :: 1 <= j <= 3 && j != i ==> punch(j) == Attempt(Ready(true), [])
    ensures PunchDecidedBy(punch, if elapsed < 3000 * i then exit else NoAnswer)
  {
    assert exit != NoAnswer;
    var polls := punch(i).polls;
    assert polls[0] == Poll(elapsed, Ready(Some(msg)));
    assert forall j: nat :: 1 <= j <= 3 && j != i ==> Undecided(j, punch(j));
    if elapsed < 3000 * i {
      assert Polled(i, punch(i), 0);
      assert Ends(i, punch(i), exit);
    } else {
      assert !Polled(i, punch(i), 0);
      assert Undecided(i, punch(i));
    }
  }

  /** A fourth attempt is not made. */
  lemma NoFourth(punch: nat -> Attempt)
    requires forall j: nat :: 1 <= j <= 3 ==> punch(j) == Attempt(Ready(true), [])
    ensures PunchDecidedBy(punch, NoAnswer)
  {
    assert forall j: nat :: 1 <= j <= 3 ==> Undecided(j, punch(j));
  }

  /** With a token or switch code, and no offer, nothing is returned over a connection that could not be secured. */
  lemma LegacyRequired(a: StartArgs, env: StartEnv, preferred: Outcome, fallback: Outcome)
    requires RequestsCameTo(a, env, preferred, fallback) && Requests(a, env) && a.legacySecure && !Offers(a, env)
    requires env.preferred.legacy != Ready(true)
    ensures !preferred.Returned?
  {
    var won :| InnerOutcome(FirstArgs(a, env), Offers(a, env), FirstEnv(a, env, fallback), won, preferred);
  }

  /** Under a relay policy the first transport up is taken at once, WebRTC or not: the relay's first report ends the race. */
  lemma RelayUnderPolicy(a: StartArgs, env: StartEnv, preferred: Outcome, fallback: Outcome, relay: RelayEnv, rest: seq<Raw>)
    requires RequestsCameTo(a, env, preferred, fallback) && Offers(a, env) && !Doubles(a, env) && a.policyRelay && !a.v6Punch
    requires Reached(FirstArgs(a, env), true, env.preferred) && env.preferred.exchange == Ready(true)
    requires PunchDecidedBy(env.preferred.punch, Relayed(relay)) && RelayRaced(true, false, relay)
    requires relay.answer && relay.setRemote == Ready(true) && relay.secure == Ready(true) && relay.race == [Report(1, true, None, 0)] + rest
    ensures preferred == Returned(Conn(if a.ws then WebSocket else Relay, false, []))
  {
    var won :| InnerOutcome(FirstArgs(a, env), Offers(a, env), FirstEnv(a, env, fallback), won, preferred);
    assert ExitOutcome(FirstArgs(a, env), true, Relayed(relay), env.preferred, won, preferred);
    var kinds := RelayKinds(a.ws, false, relay);
    assert kinds == [if a.ws then WebSocket else Relay];
    FirstUp(kinds + [WebRtc], relay.race, won);
  }

  /** `select_ok` ends with the first report if that is a success. */
  lemma FirstUp(kinds: seq<Transport>, raws: seq<Raw>, won: Outcome)
    requires FirstOutcome(kinds, raws, won) && raws != [] && raws[0].Report? && raws[0].ok && 1 <= raws[0].id <= |kinds|
    ensures won == Returned(ConnOf(kinds[raws[0].id - 1], raws[0].sample))
  {
    var h := Schedule(kinds, raws);
    assert h[0] == Done(raws[0].id, Ok(ConnOf(kinds[raws[0].id - 1], raws[0].sample)), raws[0].at);
    assert SelectsAt(|kinds|, h, 0);
  }

  /** Both requests have been looked at. */
  ghost predicate BothHeard(turns: seq<Turn>) {
    (exists i :: 0 <= i < |turns| && turns[i].Preferred?) && exists i :: 0 <= i < |turns| && turns[i].Fallback?
  }

  /** Attempt `id` is reported as failed. */
  ghost predicate FailureOf(h: seq<Event<Conn>>, id: nat) {
    exists k :: 0 <= k < |h| && h[k].Done? && h[k].id == id && h[k].report.Err?
  }

  ghost predicate SuccessOf(h: seq<Event<Conn>>, id: nat) {
    exists k :: 0 <= k < |h| && h[k].Done? && h[k].id == id && h[k].report.Ok?
  }

  /** Once both requests have come to an end `_start` has too; it fails exactly if both failed. */
  lemma BothEnded(a: StartArgs, env: StartEnv, preferred: Outcome, fallback: Outcome, r: Outcome)
    requires Doubles(a, env) && StartOutcome(a, env, preferred, fallback, r) && BothHeard(env.turns)
    requires !preferred.Dropped? && !fallback.Dropped?
    ensures !r.Dropped? && (r.Errored? <==> preferred.Errored? && fallback.Errored?)
  {
    var base := if Offers(a, env) then 0 else 1;
    var h := Turns(base, preferred, fallback, env.turns);
    TurnsReport(base, preferred, fallback, env.turns);
    if Offers(a, env) {
      RaceEnds(Race(1, env.window, Direct), h, r);
    } else {
      SelectEnds(h, r);
    }
  }

  lemma TurnsReport(base: nat, preferred: Outcome, fallback: Outcome, turns: seq<Turn>)
    requires BothHeard(turns) && !preferred.Dropped? && !fallback.Dropped?
    ensures var h := Turns(base, preferred, fallback, turns);
      && base in Reported(h, |h|) && base + 1 in Reported(h, |h|)
      && (FailureOf(h, base) <==> preferred.Errored?) && (FailureOf(h, base + 1) <==> fallback.Errored?)
      && (SuccessOf(h, base) <==> preferred.Returned?) && (SuccessOf(h, base + 1) <==> fallback.Returned?)
  {
    var h := Turns(base, preferred, fallback, turns);
    var i :| 0 <= i < |turns| && turns[i].Preferred?;
    var j :| 0 <= j < |turns| && turns[j].Fallback?;
    assert h[i] == Heard(base, preferred, turns[i].at) && h[j] == Heard(base + 1, fallback, turns[j].at);
    ReportedStays(h, i, |h|);
    ReportedStays(h, j, |h|);
  }

  lemma RaceEnds(race: Race<Conn>, h: seq<Event<Conn>>, r: Outcome)
    requires RaceOutcome(race, h, r) && race.n == 1 && 0 in Reported(h, |h|) && 1 in Reported(h, |h|)
    ensures !r.Dropped? && (r.Errored? ==> FailureOf(h, 0) && FailureOf(h, 1)) && (r.Returned? ==> SuccessOf(h, 0) || SuccessOf(h, 1))
  {
    EveryRunEnds(race, h);
    var k, v :| 0 <= k < |h| && FirstCommit(race, h, k) && Delivers(race, h, k, v) && r == Settle(v);
    SucceedsIffSomeoneDid(race, h, k, v);
    if v.Failed? {
      FailedAt(race, h, k, 0);
      FailedAt(race, h, k, 1);
    }
  }

  lemma FailedAt(race: Race<Conn>, h: seq<Event<Conn>>, k: nat, id: nat)
    requires k < |h| && id <= race.n && id in Reported(h, k + 1)
    requires !exists j :: 0 <= j <= k && Completes(race, h, j) && h[j].report.Ok?
    ensures FailureOf(h, id)
  {
    var j := FirstReport(h, k + 1, id);
    assert Completes(race, h, j);
  }

  lemma SelectEnds(h: seq<Event<Conn>>, r: Outcome)
    requires SelectOutcome(2, h, r) && 1 in Reported(h, |h|) && 2 in Reported(h, |h|)
    ensures !r.Dropped? && (r.Errored? ==> FailureOf(h, 1) && FailureOf(h, 2)) && (r.Returned? ==> SuccessOf(h, 1) || SuccessOf(h, 2))
  {
    var last := LastOfTwo(h);
    var k :| 0 <= k < |h| && SelectsAt(2, h, k) && (forall l :: 0 <= l < k ==> !SelectsAt(2, h, l))
      && r == (if h[k].report.Ok? then Returned(h[k].report.conn) else Errored);
    if r.Errored? {
      FailedFirst(h, k, 1);
      FailedFirst(h, k, 2);
    }
  }

  lemma LastOfTwo(h: seq<Event<Conn>>) returns (last: nat)
    requires 1 in Reported(h, |h|) && 2 in Reported(h, |h|)
    ensures last < |h| && SelectsAt(2, h, last)
  {
    var i := FirstReport(h, |h|, 1);
    var j := FirstReport(h, |h|, 2);
    last := if i < j then j else i;
    ReportedStays(h, i, last + 1);
    ReportedStays(h, j, last + 1);
  }

  lemma FailedFirst(h: seq<Event<Conn>>, k: nat, id: nat)
    requires k < |h| && SelectsAt(2, h, k) && h[k].report.Err? && 1 <= id <= 2 && forall l :: 0 <= l < k ==> !SelectsAt(2, h, l)
    ensures FailureOf(h, id)
  {
    assert id in Others(2);
    var j := FirstReport(h, k + 1, id);
    assert Resolves(2, h, j);
    assert j < k ==> !SelectsAt(2, h, j);
  }

  // ----- Runs of `_start` -----

  /** Only one attempt, and it comes up. */
  lemma OnlyOneUp(kind: Transport, sample: Option<bool>, won: Outcome)
    requires FirstOutcome([kind], [Report(1, true, sample, 0)], won)
    ensures won == Returned(ConnOf(kind, sample))
  {
    var h := Schedule([kind], [Report(1, true, sample, 0)]);
    assert h[0] == Done(1, Ok(ConnOf(kind, sample)), 0);
    assert SelectsAt(1, h, 0);
  }

  /** A peer that answers the first request at once, allowing everything, with the given connection coming up. */
  const PEER := Punched(false, true, true, false, true, true, Ready(()))

  function Prompt(sample: Option<bool>): InnerEnv {
    InnerEnv(Ready(true), Ready(()), Ready(true), Cancelled, Cancelled, Ready(()),
             (_: nat) => Attempt(Ready(true), [Poll(0, Ready(Some(PEER)))]), Ready(true), Ready(()),
             ConnectEnv(Ready(()), [Report(1, true, sample, 0)], 0, Cancelled, Ready(true), Cancelled, Cancelled, Ready(sample)))
  }

  lemma PromptDecides(sample: Option<bool>)
    ensures PunchDecidedBy(Prompt(sample).punch, Answered(PEER))
  {
    var attempt := Attempt(Ready(true), [Poll(0, Ready(Some(PEER)))]);
    assert Prompt(sample).punch(1) == attempt;
    assert Polled(1, attempt, 0) && PollDecides(attempt.polls[0].msg) == Some(Answered(PEER));
    assert Ends(1, attempt, Answered(PEER));
  }

  lemma PromptAnswer(a: InnerArgs, offer: bool, sample: Option<bool>, won: Outcome, r: Outcome)
    requires InnerOutcome(a, offer, Prompt(sample), won, r) && !a.legacySecure
    ensures PunchedOutcome(a, offer, PEER, Prompt(sample), won, r)
  {
    PromptDecides(sample);
    assert ExitOutcome(a, offer, Answered(PEER), Prompt(sample), won, r);
  }

  /** Carrying an offer, it comes back with WebRTC; over TURN if that is what is sampled. */
  lemma PromptWebRtc(a: InnerArgs, won: Outcome, r: Outcome)
    requires InnerOutcome(a, true, Prompt(Some(true)), won, r) && !a.legacySecure && !a.udp && !a.v6
    ensures r.Returned? && r.conn.typ.WebRtc? && r.conn.samples != [] && r.conn.samples[0] == Some(true)
  {
    PromptAnswer(a, true, Some(true), won, r);
    assert DirectKinds(ConnectArgsFor(a, true, PEER)) == [];
    OnlyOneUp(WebRtc, Some(true), won);
  }

  /** Without one, it comes back with the only punch it may make. */
  lemma PromptPunch(a: InnerArgs, won: Outcome, r: Outcome, t: Transport)
    requires InnerOutcome(a, false, Prompt(None), won, r) && !a.legacySecure && !a.forceRelay
    requires (t.Tcp? && a.tcpPunch && !a.udp && !a.v6) || (t.Udp? && a.udp && !a.tcpPunch && !a.v6) || (t.IPv6? && a.v6 && !a.tcpPunch && !a.udp)
    ensures r == Returned(Conn(t, true, []))
  {
    PromptAnswer(a, false, None, won, r);
    var raws := Prompt(None).connect.race;
    assert raws[0].Report? && raws[0].id == 1;
    RoundReturnsThePunch(a, false, PEER, Prompt(None), won, r, t, 1);
  }

  /** Each flag of `_start` alone makes its punch: with the peer's consent and a working attempt it is returned. */
  method PunchOfFlag(t: Transport) returns (r: Outcome)
    requires Classic(t)
    ensures r == Returned(Conn(t, true, []))
  {
    var a := StartArgs(false, false, false, false, false, t.Tcp?, false, t.Udp?, t.IPv6?, false);
    var env := StartEnv(Cancelled, Ready(()), true, true, Cancelled, Prompt(None), Prompt(None), [], 0);
    ghost var preferred, fallback;
    var pc;
    r, pc, preferred, fallback := Start(a, env);
    ghost var won :| InnerOutcome(FirstArgs(a, env), Offers(a, env), FirstEnv(a, env, fallback), won, preferred);
    PromptPunch(FirstArgs(a, env), won, preferred, t);
  }

  /** A UDP request that fails leaves the second request, and TCP is what comes of it. */
  method TcpAfterUdp() returns (r: Outcome)
    ensures r == Returned(Conn(Tcp, true, []))
  {
    var a := StartArgs(false, false, false, false, false, true, false, true, false, false);
    var env := StartEnv(Cancelled, Ready(()), true, false, Cancelled, Prompt(None).(socket := Ready(false)), Prompt(None),
                        [Preferred(0), Fallback(1)], 0);
    ghost var preferred, fallback;
    var pc;
    r, pc, preferred, fallback := Start(a, env);
    ghost var won :| InnerOutcome(SecondArgs(a, env), false, env.fallback, won, fallback);
    PromptPunch(SecondArgs(a, env), won, fallback, Tcp);
    NotReturnedFirst(preferred, fallback, r);
  }

  lemma NotReturnedFirst(preferred: Outcome, fallback: Outcome, r: Outcome)
    requires SelectOutcome(2, Turns(1, preferred, fallback, [Preferred(0), Fallback(1)]), r) && !preferred.Returned? && fallback.Returned?
    ensures r == fallback
  {
    var h := Turns(1, preferred, fallback, [Preferred(0), Fallback(1)]);
    assert h[0] == Heard(1, preferred, 0) && h[1] == Done(2, Ok(fallback.conn), 1);
    assert Reported(h, 0) == {} && 2 !in Reported(h, 1);
    assert SelectsAt(2, h, 1) && !SelectsAt(2, h, 0);
  }

  lemma TurnThenTcp(turn: Conn, tcp: Conn, window: int, r: Outcome)
    requires !turn.direct && tcp.direct && RaceOutcome(Race(1, window, Direct), Turns(0, Returned(turn), Returned(tcp), [Preferred(0), Fallback(1)]), r)
    ensures r == Returned(tcp)
  {
    var h := Turns(0, Returned(turn), Returned(tcp), [Preferred(0), Fallback(1)]);
    var race := Race(1, window, Direct);
    assert h[0] == Done(0, Ok(turn), 0) && h[1] == Done(1, Ok(tcp), 1);
    assert Reported(h, 1) == {0};
    assert DirectAt(race, h, 1);
    assert 1 !in Reported(h, 1);
    assert !CommitsAt(race, h, 0) && CommitsAt(race, h, 1);
    var k, v :| 0 <= k < |h| && FirstCommit(race, h, k) && Delivers(race, h, k, v) && r == Settle(v);
    assert k == 1;
  }

  /**
   Such a run exists whatever the window: the offering request comes back with WebRTC over TURN, which
   the outer race holds, and the TCP request then wins.  The caller gets TCP, and nothing has closed the
   peer connection, whose guard has already let it go.
   */
  method HeldTurnIsLeftOpen(window: int) returns (r: Outcome, pc: PeerConnection?)
    ensures r == Returned(Conn(Tcp, true, [])) && pc != null && !pc.closed
  {
    var a := StartArgs(false, false, false, false, false, true, false, false, false, true);
    var env := StartEnv(Cancelled, Ready(()), false, false, Ready(true), Prompt(Some(true)), Prompt(None),
                        [Preferred(0), Fallback(1)], window);
    ghost var preferred, fallback;
    r, pc, preferred, fallback := Start(a, env);
    assert env.turns[0].Preferred?;
    ghost var won :| InnerOutcome(FirstArgs(a, env), Offers(a, env), FirstEnv(a, env, fallback), won, preferred);
    PromptWebRtc(FirstArgs(a, env), won, preferred);
    ghost var won2 :| InnerOutcome(SecondArgs(a, env), false, env.fallback, won2, fallback);
    PromptPunch(SecondArgs(a, env), won2, fallback, Tcp);
    TurnThenTcp(preferred.conn, fallback.conn, window, r);
  }
}
