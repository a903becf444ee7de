/** The desktop's side of pairing: ServiceManager's control-message handlers. */
module PairingClient {
  import opened Wrappers
  import opened Bytes
  import opened Crypto
  import opened PairingServer
  import Filter = ReplayFilter
  import Reassembler

  datatype Phase = DISCONNECTED | AWAITING_CHALLENGE | AWAITING_PAIRING_OK | PAIRED

  /** keys is the crypto_ pointer; mode and rx are the media reassembler's key and state. */
  datatype State = State(
    phase: Phase,
    pin: string,
    token: string,
    keys: Arming,
    streaming: bool,
    mode: Arming,
    rx: Reassembler.State)

  datatype Reaction = Reaction(state: State, sent: seq<ClientMessage>)

  /** ConnectDevice, with the outcome of the TCP connect. Streaming is left as it was. */
  function Connecting(s: State, pin: string, connected: bool): State {
    s.(pin := pin, token := "", keys := Plain, phase := if connected then AWAITING_CHALLENGE else DISCONNECTED)
  }

  function Disconnecting(s: State): State {
    s.(streaming := false, phase := DISCONNECTED, token := "", keys := Plain)
  }

  /** A command carries the token once there is one. */
  function ControlMessage(s: State, kind: string): ClientMessage {
    Command(kind, if s.token == "" then None else Some(s.token))
  }

  /** `mine` is what the key pair generator drew. */
  function OnChallenge(p: Primitives, s: State, serverPub: seq<byte>, sessionId: uint32, mine: KeyPair): Reaction
    requires p.Laws()
  {
    if s.phase != AWAITING_CHALLENGE || |serverPub| != KEY_SIZE then Reaction(s, [])
    else
      var keys := Derive(p, false, serverPub, mine.publicKey, mine.privateKey);
      if keys.None? then Reaction(s, [])
      else
        var rx := Reassembler.Rearmed(s.rx);
        Reaction(s.(phase := AWAITING_PAIRING_OK, keys := Armed(keys), mode := Armed(keys),
                    rx := if sessionId != 0 then Reassembler.Expecting(rx, sessionId) else rx),
                 [PairingResponse(s.pin, mine.publicKey)])
  }

  /**
    A usable challenge while one is awaited - and nothing else - moves the client on: its media reassembler gets the
    client's keys of the schedule (what arrives is keyed by the s2c labels) and an empty replay history, and the
    answer is the PIN with the drawn key. Any other challenge is without effect.
  */
  lemma ClientKeysScheduled(p: Primitives, s: State, serverPub: Key, sessionId: uint32, mine: KeyPair, lo: Key, hi: Key)
    requires p.Laws()
    requires NotAfter(lo, hi) && ((lo, hi) == (mine.publicKey, serverPub) || (lo, hi) == (serverPub, mine.publicKey))
    ensures var r := OnChallenge(p, s, serverPub, sessionId, mine);
            var prk := Extracted(p, mine.privateKey, serverPub);
      && (r.sent == [] ==> r.state == s)
      && (r.sent != [] <==> s.phase == AWAITING_CHALLENGE && prk.Some?
                            && exists k :: Scheduled(p, prk.value, lo, hi, false, k))
      && (r.sent != [] ==>
            && r.sent == [PairingResponse(s.pin, mine.publicKey)]
            && r.state.phase == AWAITING_PAIRING_OK && r.state.mode == r.state.keys
            && r.state.mode.Armed? && r.state.mode.keys.Some?
            && Scheduled(p, prk.value, lo, hi, false, r.state.mode.keys.value)
            && r.state.rx.replay == Filter.INITIAL && r.state.rx.pending == s.rx.pending
            && r.state.rx.sessionLocked == (sessionId != 0)
            && (sessionId != 0 ==> r.state.rx.expectedSession == sessionId))
  {
    DeriveIsScheduled(p, false, serverPub, mine.publicKey, mine.privateKey, lo, hi);
    hide Derive, Scheduled, NotAfter;
  }

  function OnResult(s: State, token: string, errorReason: string): Reaction {
    if errorReason != "" then
      Reaction(s.(phase := DISCONNECTED, streaming := false, keys := Plain), [])
    else if token == "" then Reaction(s, [])
    else
      var s1 := s.(token := token, phase := PAIRED, streaming := true);
      Reaction(s1, [ControlMessage(s1, "startStream"), ControlMessage(s1, "hello")])
  }

  function OnMessage(p: Primitives, s: State, m: ServerMessage, mine: KeyPair): Reaction
    requires p.Laws()
  {
    match m
    case PairingChallenge(key, id) => OnChallenge(p, s, key, id, mine)
    case PairingOk(token) => OnResult(s, token, "")
    case PairingError(reason) => OnResult(s, "", reason)
    case Info => Reaction(s, [])
  }

  /** A control from the user interface: sent only while streaming. */
  function OnUserCommand(s: State, kind: string): Reaction {
    Reaction(s, if s.streaming then [ControlMessage(s, kind)] else [])
  }

  /** Its two commands carry the token just received. */
  lemma TokenPairs(p: Primitives, s: State, token: string, mine: KeyPair)
    requires p.Laws() && token != ""
    ensures OnMessage(p, s, PairingOk(token), mine)
         == Reaction(s.(token := token, phase := PAIRED, streaming := true),
                     [Command("startStream", Some(token)), Command("hello", Some(token))])
  {
  }

  /** A disconnected client is silent; of all messages that may still arrive, only a token changes that. */
  lemma DisconnectedIsSilent(p: Primitives, s: State, kind: string, m: ServerMessage, mine: KeyPair)
    requires p.Laws()
    ensures var off := Disconnecting(s);
            var r := OnMessage(p, off, m, mine);
      && OnUserCommand(off, kind) == Reaction(off, [])
      && (r.sent != [] <==> m.PairingOk? && m.token != "")
      && (r.sent == [] ==> r.state == off)
  {
  }

  /** A refused client stops streaming and forgets its keys; the media reassembler keeps what it was given. */
  lemma RefusedClientStops(p: Primitives, s: State, reason: string, kind: string, mine: KeyPair)
    requires p.Laws() && reason != ""
    ensures var r := OnMessage(p, s, PairingError(reason), mine);
      && r.sent == [] && r.state.phase == DISCONNECTED && r.state.keys == Plain
      && r.state.mode == s.mode && r.state.rx == s.rx
      && OnUserCommand(r.state, kind).sent == []
  {
  }

  /** A new connection starts unpaired; what streams on from an earlier one does so without a token. */
  lemma ConnectingForgets(s: State, pin: string, connected: bool, kind: string)
    ensures var c := Connecting(s, pin, connected);
      && c.phase == (if connected then AWAITING_CHALLENGE else DISCONNECTED) && c.pin == pin && c.keys == Plain
      && OnUserCommand(c, kind).sent == (if s.streaming then [Command(kind, None)] else [])
      && c.mode == s.mode && c.rx == s.rx
  {
  }

  // ---- The mutable client ----

  class ServiceManager {
    const primitives: Primitives
    const reassembler: Reassembler.FrameReassembler
    var pairingState: Phase
    var pin: string
    var token: string
    var crypto: SessionCrypto?
    var isStreaming: bool

    ghost predicate Valid()
      reads this, reassembler
    {
      primitives.Laws() && reassembler.Valid() && reassembler.primitives == primitives
    }

    constructor (p: Primitives)
      requires p.Laws()
      ensures Valid() && primitives == p && fresh(reassembler) && fresh(reassembler.replayFilter)
      ensures Value() == State(DISCONNECTED, "", "", Plain, false, Plain, Reassembler.INITIAL)
    {
      primitives := p;
      reassembler := new Reassembler.FrameReassembler(p);
      pairingState, pin, token, crypto, isStreaming := DISCONNECTED, "", "", null, false;
    }

    function Value(): State
      reads this, crypto, reassembler, reassembler.crypto, reassembler.replayFilter
    {
      State(pairingState, pin, token, if crypto == null then Plain else Armed(crypto.Keys()), isStreaming,
            reassembler.Mode(), reassembler.Value())
    }

    method ConnectDevice(pin: string, connected: bool)
      requires Valid()
      modifies this
      ensures Valid() && Value() == Connecting(old(Value()), pin, connected)
    {
      this.pin := pin;
      token := "";
      crypto := null;
      pairingState := AWAITING_CHALLENGE;
      if !connected {
        pairingState := DISCONNECTED;
      }
    }

    method DisconnectDevice()
      requires Valid()
      modifies this
      ensures Valid() && Value() == Disconnecting(old(Value()))
    {
      isStreaming := false;
      pairingState := DISCONNECTED;
      token := "";
      crypto := null;
    }

    function BuildControlMessage(kind: string): ClientMessage
      reads this
    {
      Command(kind, if token == "" then None else Some(token))
    }

    method OnTcpControlMessage(m: ServerMessage, mine: KeyPair) returns (sent: seq<ClientMessage>)
      requires Valid()
      modifies this, reassembler, reassembler.replayFilter
      ensures Valid()
      ensures Reaction(Value(), sent) == OnMessage(primitives, old(Value()), m, mine)
    {
      match m
      case PairingChallenge(key, id) => sent := HandlePairingChallenge(key, id, mine);
      case PairingOk(newToken) => sent := HandlePairingResult(newToken, "");
      case PairingError(reason) => sent := HandlePairingResult("", reason);
      case Info => sent := [];
    }

    method HandlePairingChallenge(serverPub: seq<byte>, sessionId: uint32, mine: KeyPair)
      returns (sent: seq<ClientMessage>)
      requires Valid()
      modifies this, reassembler, reassembler.replayFilter
      ensures Valid()
      ensures Reaction(Value(), sent) == OnChallenge(primitives, old(Value()), serverPub, sessionId, mine)
    {
      if pairingState != AWAITING_CHALLENGE || |serverPub| != KEY_SIZE {
        return [];
      }
      var session := new SessionCrypto(primitives);
      var ok := session.DeriveSessionKeys(false, serverPub, mine.publicKey, mine.privateKey);
      if !ok {
        return [];
      }
      crypto := session;
      reassembler.SetCrypto(session);
      if sessionId != 0 {
        reassembler.SetExpectedSessionId(sessionId);
      }
      pairingState := AWAITING_PAIRING_OK;
      sent := [PairingResponse(pin, mine.publicKey)];
    }

    method HandlePairingResult(newToken: string, errorReason: string) returns (sent: seq<ClientMessage>)
      requires Valid()
      modifies this
      ensures Valid()
      ensures Reaction(Value(), sent) == OnResult(old(Value()), newToken, errorReason)
    {
      if errorReason != "" {
        pairingState := DISCONNECTED;
        isStreaming := false;
        crypto := null;
        return [];
      }
      if newToken == "" {
        return [];
      }
      token := newToken;
      pairingState := PAIRED;
      isStreaming := true;
      sent := [BuildControlMessage("startStream"), BuildControlMessage("hello")];
    }

    method SendUserCommand(kind: string) returns (sent: seq<ClientMessage>)
      requires Valid()
      ensures Reaction(Value(), sent) == OnUserCommand(Value(), kind)
    {
      sent := if isStreaming then [BuildControlMessage(kind)] else [];
    }
  }
}
