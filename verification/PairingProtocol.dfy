/**
  Both parties of one pairing over one FIFO connection, one atomic step per handled message, interleaved with
  user commands in any way.
*/
module PairingProtocol {
  import opened Wrappers
  import opened Bytes
  import opened Crypto
  import opened PairingServer
  import Pairing
  import NativeSender
  import Client = PairingClient
  import Filter = ReplayFilter
  import Reassembler

  /** The two endpoints, the two queues, and the delivered commands that the phone did not dispatch. */
  datatype Net = Net(
    conn: Conn,
    client: Client.State,
    toClient: seq<ServerMessage>,
    toServer: seq<ClientMessage>,
    refused: seq<ClientMessage>)

  datatype Step =
    | ToClient(mine: KeyPair)                    // the key pair drawn if this is the challenge
    | ToServer(now: int, newToken: string)       // the clock and the token drawn if this is the response
    | UserCommand(kind: string)

  /** The client has connected with a PIN its user typed; the phone has accepted and sent its challenge. */
  function Begin(manager: Pairing.State, sender: NativeSender.State, client: Client.State, typedPin: string,
                 now: int, shownPin: string, keys: KeyPair, sessionId: uint32): Net
  {
    var (conn, challenge) := Accepted(manager, sender, "client", now, shownPin, keys, sessionId);
    Net(conn, Client.Connecting(client, typedPin, true), [challenge], [], [])
  }

  function Apply(p: Primitives, n: Net, step: Step): Net
    requires p.Laws()
  {
    match step
    case ToClient(mine) =>
      if n.toClient == [] then n
      else
        var r := Client.OnMessage(p, n.client, n.toClient[0], mine);
        n.(client := r.state, toClient := n.toClient[1..], toServer := n.toServer + r.sent)
    case ToServer(now, token) =>
      if n.toServer == [] then n
      else
        var h := Handle(p, n.conn, n.toServer[0], now, token);
        n.(conn := h.conn, toServer := n.toServer[1..], toClient := n.toClient + h.replies,
           refused := n.refused + if n.toServer[0].Command? && h.dispatched.None? then [n.toServer[0]] else [])
    case UserCommand(kind) => n.(toServer := n.toServer + Client.OnUserCommand(n.client, kind).sent)
  }

  function ApplyAll(p: Primitives, n: Net, steps: seq<Step>): Net
    requires p.Laws()
    decreases |steps|
  {
    if steps == [] then n else ApplyAll(p, Apply(p, n, steps[0]), steps[1..])
  }

  /** Generators work: a key pair is one, a token is one. */
  ghost predicate WellDrawn(p: Primitives, step: Step) {
    match step
    case ToClient(mine) => mine.publicKey == p.publicOf(mine.privateKey)
    case ToServer(_, token) => Pairing.IsToken(token)
    case UserCommand(_) => true
  }

  // ---- The invariant, phase by phase ----

  /** The phone waits for the response to its challenge. */
  ghost predicate PhoneChallenging(p: Primitives, c: Conn, shownPin: string) {
    && c.open && !c.authenticated
    && c.manager.phase == Pairing.AWAITING_PIN && c.manager.pin == Some(shownPin) && Pairing.IsPin(shownPin)
    && c.sender.pending.publicKey == p.publicOf(c.sender.pending.privateKey)
    && c.sender.crypto.Some?
  }

  /** The client holds the keys that its public key in this response commits it to. */
  ghost predicate ClientCommitted(p: Primitives, n: Net, priv: Key)
    requires p.Laws()
  {
    && n.client.phase == Client.AWAITING_PAIRING_OK
    && n.client.keys == n.client.mode
    && n.client.mode == Armed(Derive(p, false, n.conn.sender.pending.publicKey, p.publicOf(priv), priv))
    && n.client.mode.keys.Some?
  }

  /** Phone and client hold mirrored keys, the phone has issued `token`, and the client's PIN was right. */
  ghost predicate PhonePaired(n: Net, shownPin: string, token: string) {
    && n.conn.open && n.conn.authenticated
    && n.conn.manager.phase == Pairing.PAIRED && n.conn.manager.token == Some(token) && Pairing.IsToken(token)
    && n.client.pin == shownPin
    && n.conn.sender.mode.Armed? && n.conn.sender.mode.keys.Some?
    && n.client.mode.Armed? && n.client.mode.keys.Some? && n.client.keys == n.client.mode
    && Mirrored(n.conn.sender.mode.keys.value, n.client.mode.keys.value)
  }

  /** A command without a token: what a client still streaming from an earlier pairing sends until it is paired. */
  ghost predicate IsStale(m: ClientMessage) {
    m.Command? && m.authToken == None
  }

  ghost predicate AllStale(q: seq<ClientMessage>) {
    forall i :: 0 <= i < |q| ==> IsStale(q[i])
  }

  /** The response is in flight, with nothing but such commands before and after it. */
  ghost predicate Responding(p: Primitives, n: Net, shownPin: string, priv: Key, k: nat)
    requires p.Laws()
  {
    && PhoneChallenging(p, n.conn, shownPin) && ClientCommitted(p, n, priv) && n.toClient == []
    && k < |n.toServer| && n.toServer[k] == PairingResponse(n.client.pin, p.publicOf(priv))
    && forall i :: 0 <= i < |n.toServer| && i != k ==> IsStale(n.toServer[i])
  }

  ghost predicate Accepting(n: Net, shownPin: string, token: string) {
    AllStale(n.toServer) && n.toClient == [PairingOk(token)] && PhonePaired(n, shownPin, token)
  }

  ghost predicate Refusing(n: Net, why: string) {
    AllStale(n.toServer) && n.toClient == [PairingError(why)] && why != "" && !n.conn.authenticated
  }

  /** Arming forgot the replay history and pinned the session that the phone announced, if it announced one. */
  ghost predicate ReceiverArmed(rx: Reassembler.State, sessionId: uint32) {
    && rx.replay == Filter.INITIAL
    && (if sessionId != 0 then rx.sessionLocked && rx.expectedSession == sessionId else !rx.sessionLocked)
  }

  ghost predicate Inv(p: Primitives, n: Net, shownPin: string, sessionId: uint32)
    requires p.Laws()
  {
    && AllStale(n.refused)
    && match n.client.phase
       case AWAITING_CHALLENGE =>
         && PhoneChallenging(p, n.conn, shownPin) && AllStale(n.toServer) && n.client.token == ""
         && (n.toClient == [] || n.toClient == [PairingChallenge(n.conn.sender.pending.publicKey, sessionId)])
       case AWAITING_PAIRING_OK =>
         && ReceiverArmed(n.client.rx, sessionId) && n.client.token == ""
         && ((exists priv, k :: Responding(p, n, shownPin, priv, k))
             || (exists token :: Accepting(n, shownPin, token))
             || exists why :: Refusing(n, why))
       case PAIRED =>
         && ReceiverArmed(n.client.rx, sessionId) && n.client.streaming
         && PhonePaired(n, shownPin, n.client.token)
         && (forall i :: 0 <= i < |n.toClient| ==> n.toClient[i] == Info)
         && forall i :: 0 <= i < |n.toServer| ==> IsStale(n.toServer[i]) || Authorised(n.client, n.toServer[i])
       case DISCONNECTED =>
         !n.client.streaming && !n.conn.authenticated && AllStale(n.toServer) && n.toClient == []
  }

  /** A command with the client's token. */
  ghost predicate Authorised(c: Client.State, m: ClientMessage) {
    m.Command? && m.authToken == Some(c.token)
  }

  /** Nothing stale is about: what holds throughout when the client was not streaming as it connected. */
  ghost predicate Quiet(n: Net) {
    && n.refused == []
    && (n.client.streaming ==> n.client.phase == Client.PAIRED)
    && forall i :: 0 <= i < |n.toServer| ==> !IsStale(n.toServer[i])
  }

  /** The response: exactly the right PIN and a key of this exchange pair the phone, with mirrored keys. */
  lemma ResponseHandled(p: Primitives, n: Net, shownPin: string, priv: Key, now: int, token: string)
    requires p.Laws() && PhoneChallenging(p, n.conn, shownPin) && ClientCommitted(p, n, priv) && Pairing.IsToken(token)
    ensures var h := Handle(p, n.conn, PairingResponse(n.client.pin, p.publicOf(priv)), now, token);
      if n.client.pin == shownPin
      then h.replies == [PairingOk(token)] && PhonePaired(n.(conn := h.conn), shownPin, token)
      else h.replies == [PairingError("invalid_pin")] && !h.conn.authenticated
  {
    Pairing.SameAsciiIsEquality(n.client.pin, shownPin);
    DeriveMirrored(p, n.conn.sender.pending.privateKey, priv);
    hide Derive, Mirrored;
  }

  /** The gate: without the token nothing is dispatched, with it every command is. */
  lemma StaleRefused(p: Primitives, c: Conn, m: ClientMessage, now: int, token: string)
    requires p.Laws() && IsStale(m)
    requires c.authenticated ==> c.manager.token.Some? && Pairing.IsToken(c.manager.token.value)
    ensures Handle(p, c, m, now, token) == Handled(c, [], None)
  {
  }

  lemma AuthorisedDispatched(p: Primitives, n: Net, shownPin: string, m: ClientMessage, now: int, token: string)
    requires p.Laws() && PhonePaired(n, shownPin, n.client.token) && Authorised(n.client, m)
    ensures var h := Handle(p, n.conn, m, now, token);
      && h.conn == n.conn && h.dispatched == Some(OpCode(m.kind))
      && h.replies == if m.kind == "hello" then [Info] else []
  {
    CodesAgree(m.kind);
    assert Pairing.SameAscii(n.client.token, n.client.token);
  }

  /** The two commands that the client sends on being paired start the stream and get the phone's capabilities. */
  lemma PairedClientStarts(p: Primitives, n: Net, shownPin: string, token: string, mine: KeyPair, now: int,
                           newToken: string)
    requires p.Laws() && PhonePaired(n, shownPin, token)
    ensures var r := Client.OnMessage(p, n.client, PairingOk(token), mine);
      && |r.sent| == 2 && r.state == n.client.(token := token, phase := Client.PAIRED, streaming := true)
      && Handle(p, n.conn, r.sent[0], now, newToken) == Handled(n.conn, [], Some(3))
      && Handle(p, n.conn, r.sent[1], now, newToken) == Handled(n.conn, [Info], Some(1))
  {
    hide Derive, Mirrored, Handle, Client.OnMessage, Pairing.PlainAscii;
    Client.TokenPairs(p, n.client, token, mine);
    CommandOutcome(p, n.conn, token, "startStream", Some(token), now, newToken);
    CommandOutcome(p, n.conn, token, "hello", Some(token), now, newToken);
    assert COMMANDS[2] == ("startStream", 3) && COMMANDS[0] == ("hello", 1);
  }

  lemma ChallengeKeeps(p: Primitives, n: Net, mine: KeyPair, shownPin: string, sessionId: uint32)
    requires p.Laws() && Inv(p, n, shownPin, sessionId) && mine.publicKey == p.publicOf(mine.privateKey)
    requires n.client.phase == Client.AWAITING_CHALLENGE && n.toClient != []
    ensures Inv(p, Apply(p, n, ToClient(mine)), shownPin, sessionId)
    ensures Quiet(n) ==> Quiet(Apply(p, n, ToClient(mine)))
  {
    hide Derive, Mirrored, Pairing.IsPin;
    var after := Apply(p, n, ToClient(mine));
    assert n.toServer + [] == n.toServer;
    if after.client.phase == Client.AWAITING_PAIRING_OK {
      assert Responding(p, after, shownPin, mine.privateKey, |n.toServer|);
    }
  }

  lemma ResultKeeps(p: Primitives, n: Net, mine: KeyPair, shownPin: string, sessionId: uint32)
    requires p.Laws() && Inv(p, n, shownPin, sessionId)
    requires n.client.phase == Client.AWAITING_PAIRING_OK && n.toClient != []
    ensures Inv(p, Apply(p, n, ToClient(mine)), shownPin, sessionId)
    ensures Quiet(n) ==> Quiet(Apply(p, n, ToClient(mine)))
  {
    hide Derive, Mirrored, PhoneChallenging, ReceiverArmed;
    var after := Apply(p, n, ToClient(mine));
    assert n.toServer + [] == n.toServer;
    if after.client.phase == Client.PAIRED {
      assert PhonePaired(after, shownPin, after.client.token);
    }
  }

  lemma ToClientKeeps(p: Primitives, n: Net, mine: KeyPair, shownPin: string, sessionId: uint32)
    requires p.Laws() && Inv(p, n, shownPin, sessionId) && mine.publicKey == p.publicOf(mine.privateKey)
    ensures Inv(p, Apply(p, n, ToClient(mine)), shownPin, sessionId)
    ensures Quiet(n) ==> Quiet(Apply(p, n, ToClient(mine)))
  {
    hide Derive, Mirrored, Pairing.IsPin, Responding, Accepting, Refusing, ReceiverArmed;
    if n.toClient != [] {
      assert n.toServer + [] == n.toServer;
      match n.client.phase {
        case AWAITING_CHALLENGE => ChallengeKeeps(p, n, mine, shownPin, sessionId);
        case AWAITING_PAIRING_OK => ResultKeeps(p, n, mine, shownPin, sessionId);
        case PAIRED => assert n.toClient[0] == Info;
        case DISCONNECTED =>
      }
    }
  }

  /** The head of the queue is handled; what follows it stays as it was. */
  lemma StaleKeeps(p: Primitives, n: Net, now: int, token: string, shownPin: string, sessionId: uint32)
    requires p.Laws() && Inv(p, n, shownPin, sessionId) && n.toServer != [] && IsStale(n.toServer[0])
    ensures Inv(p, Apply(p, n, ToServer(now, token)), shownPin, sessionId)
  {
    hide Derive, Mirrored, HandleResponse, Pairing.IsPin;
    var after := Apply(p, n, ToServer(now, token));
    StaleRefused(p, n.conn, n.toServer[0], now, token);
    hide Handle;
    assert after.toClient == n.toClient && after.conn == n.conn && after.refused == n.refused + [n.toServer[0]];
    if n.client.phase == Client.AWAITING_PAIRING_OK {
      if priv, k: nat :| Responding(p, n, shownPin, priv, k) {
        assert k != 0;
        assert Responding(p, after, shownPin, priv, k - 1);
      } else if t :| Accepting(n, shownPin, t) {
        assert Accepting(after, shownPin, t);
      } else {
        var why :| Refusing(n, why);
        assert Refusing(after, why);
      }
    }
  }

  lemma ResponseKeeps(p: Primitives, n: Net, now: int, token: string, shownPin: string, sessionId: uint32)
    requires p.Laws() && Inv(p, n, shownPin, sessionId) && Pairing.IsToken(token)
    requires n.toServer != [] && n.toServer[0].PairingResponse?
    ensures Inv(p, Apply(p, n, ToServer(now, token)), shownPin, sessionId)
    ensures Apply(p, n, ToServer(now, token)).refused == n.refused
  {
    hide Derive, Mirrored, HandleResponse, Pairing.IsPin;
    var after := Apply(p, n, ToServer(now, token));
    var priv, k :| Responding(p, n, shownPin, priv, k);
    assert k == 0;
    ResponseHandled(p, n, shownPin, priv, now, token);
    var h := Handle(p, n.conn, n.toServer[0], now, token);
    assert after.toClient == h.replies;
    if n.client.pin == shownPin {
      assert Accepting(after, shownPin, token);
    } else {
      assert Refusing(after, "invalid_pin");
    }
  }

  lemma ToServerKeeps(p: Primitives, n: Net, now: int, token: string, shownPin: string, sessionId: uint32)
    requires p.Laws() && Inv(p, n, shownPin, sessionId) && Pairing.IsToken(token)
    ensures Inv(p, Apply(p, n, ToServer(now, token)), shownPin, sessionId)
    ensures Quiet(n) ==> Quiet(Apply(p, n, ToServer(now, token)))
  {
    hide Derive, Mirrored, HandleResponse, Pairing.IsPin;
    if n.toServer != [] {
      if IsStale(n.toServer[0]) {
        StaleKeeps(p, n, now, token, shownPin, sessionId);
      } else if n.toServer[0].PairingResponse? {
        ResponseKeeps(p, n, now, token, shownPin, sessionId);
      } else {
        AuthorisedDispatched(p, n, shownPin, n.toServer[0], now, token);
        hide Handle;
        assert PhonePaired(Apply(p, n, ToServer(now, token)), shownPin, n.client.token);
      }
    }
  }

  lemma UserCommandKeeps(p: Primitives, n: Net, kind: string, shownPin: string, sessionId: uint32)
    requires p.Laws() && Inv(p, n, shownPin, sessionId)
    ensures Inv(p, Apply(p, n, UserCommand(kind)), shownPin, sessionId)
    ensures Quiet(n) ==> Quiet(Apply(p, n, UserCommand(kind)))
  {
    hide Derive, Mirrored;
    var after := Apply(p, n, UserCommand(kind));
    if !n.client.streaming {
      assert n.toServer + [] == n.toServer;
      assert after == n;
    } else if n.client.phase == Client.PAIRED {
      assert PhonePaired(after, shownPin, after.client.token);
    } else if n.client.phase == Client.AWAITING_PAIRING_OK {
      if priv, k: nat :| Responding(p, n, shownPin, priv, k) {
        assert Responding(p, after, shownPin, priv, k);
      } else if t :| Accepting(n, shownPin, t) {
        assert Accepting(after, shownPin, t);
      } else {
        var why :| Refusing(n, why);
        assert Refusing(after, why);
      }
    }
  }

  lemma {:induction false} InvAlways(p: Primitives, n: Net, steps: seq<Step>, shownPin: string, sessionId: uint32)
    requires p.Laws() && Inv(p, n, shownPin, sessionId)
    requires forall i :: 0 <= i < |steps| ==> WellDrawn(p, steps[i])
    ensures Inv(p, ApplyAll(p, n, steps), shownPin, sessionId)
    ensures Quiet(n) ==> Quiet(ApplyAll(p, n, steps))
    decreases |steps|
  {
    hide Inv, Quiet, Apply;
    if steps != [] {
      assert WellDrawn(p, steps[0]);
      match steps[0] {
        case ToClient(mine) => ToClientKeeps(p, n, mine, shownPin, sessionId);
        case ToServer(now, token) => ToServerKeeps(p, n, now, token, shownPin, sessionId);
        case UserCommand(kind) => UserCommandKeeps(p, n, kind, shownPin, sessionId);
      }
      InvAlways(p, Apply(p, n, steps[0]), steps[1..], shownPin, sessionId);
    }
  }

  lemma BeginInv(p: Primitives, manager: Pairing.State, sender: NativeSender.State, client: Client.State,
                 typedPin: string, now: int, shownPin: string, keys: KeyPair, sessionId: uint32)
    requires p.Laws() && Pairing.IsPin(shownPin) && keys.publicKey == p.publicOf(keys.privateKey)
    requires Accepted(manager, sender, "client", now, shownPin, keys, sessionId).0.open
    ensures var start := Begin(manager, sender, client, typedPin, now, shownPin, keys, sessionId);
      Inv(p, start, shownPin, sessionId) && (!client.streaming ==> Quiet(start))
  {
  }

  /**
    In every interleaving: if the client is paired, so is the phone, with the same token; the PIN typed was the
    PIN shown; client receive and transmit keys and salts are the phone's transmit and receive ones. The phone has
    dispatched every command that carried the token, and every one in flight carries the token or none: one
    without was sent before the client was paired.
  */
  lemma PairingIsMutual(p: Primitives, manager: Pairing.State, sender: NativeSender.State, client: Client.State,
                        typedPin: string, now: int, shownPin: string, keys: KeyPair, sessionId: uint32,
                        steps: seq<Step>)
    requires p.Laws() && Pairing.IsPin(shownPin) && keys.publicKey == p.publicOf(keys.privateKey)
    requires Accepted(manager, sender, "client", now, shownPin, keys, sessionId).0.open
    requires forall i :: 0 <= i < |steps| ==> WellDrawn(p, steps[i])
    ensures var n := ApplyAll(p, Begin(manager, sender, client, typedPin, now, shownPin, keys, sessionId), steps);
      && (forall i :: 0 <= i < |n.refused| ==> n.refused[i].Command? && n.refused[i].authToken == None)
      && (n.client.phase == Client.PAIRED ==>
            && n.conn.open && n.conn.authenticated && n.conn.manager.phase == Pairing.PAIRED
            && n.client.token != "" && n.conn.manager.token == Some(n.client.token)
            && typedPin == shownPin
            && n.conn.sender.mode.Armed? && n.conn.sender.mode.keys.Some?
            && n.client.mode.Armed? && n.client.mode.keys.Some?
            && Mirrored(n.conn.sender.mode.keys.value, n.client.mode.keys.value)
            && forall i :: 0 <= i < |n.toServer| ==>
                 n.toServer[i].Command? && n.toServer[i].authToken in [None, Some(n.client.token)])
  {
    hide Apply, Derive, Mirrored;
    var start := Begin(manager, sender, client, typedPin, now, shownPin, keys, sessionId);
    BeginInv(p, manager, sender, client, typedPin, now, shownPin, keys, sessionId);
    InvAlways(p, start, steps, shownPin, sessionId);
    PinKept(p, start, steps);
  }

  lemma {:induction false} PinKept(p: Primitives, n: Net, steps: seq<Step>)
    requires p.Laws()
    ensures ApplyAll(p, n, steps).client.pin == n.client.pin
    decreases |steps|
  {
    hide Handle, Derive;
    if steps != [] { PinKept(p, Apply(p, n, steps[0]), steps[1..]); }
  }

  /**
    Connecting does not clear the streaming flag: a client that still has it set may send a control before it is
    paired, without a token, and the gate refuses it.
  */
  lemma StreamingClientIsRefused(p: Primitives, manager: Pairing.State, sender: NativeSender.State,
                                 client: Client.State, typedPin: string, now: int, shownPin: string, keys: KeyPair,
                                 sessionId: uint32, kind: string, later: int, token: string)
    requires p.Laws() && client.streaming
    requires Accepted(manager, sender, "client", now, shownPin, keys, sessionId).0.open
    ensures var start := Begin(manager, sender, client, typedPin, now, shownPin, keys, sessionId);
      ApplyAll(p, start, [UserCommand(kind), ToServer(later, token)]).refused == [Command(kind, None)]
  {
    var start := Begin(manager, sender, client, typedPin, now, shownPin, keys, sessionId);
    var one := Apply(p, start, UserCommand(kind));
    assert one.toServer == [Command(kind, None)];
    var two := Apply(p, one, ToServer(later, token));
    assert two.refused == [Command(kind, None)];
    hide Apply, Begin;
    var steps := [UserCommand(kind), ToServer(later, token)];
    assert steps[1..] == [ToServer(later, token)] && steps[1..][1..] == [];
    assert ApplyAll(p, two, []) == two;
  }

  /** The phone dispatches every command of every run exactly when the client was not streaming as it connected. */
  lemma NothingRefusedIff(p: Primitives, manager: Pairing.State, sender: NativeSender.State, client: Client.State,
                          typedPin: string, now: int, shownPin: string, keys: KeyPair, sessionId: uint32)
    requires p.Laws() && Pairing.IsPin(shownPin) && keys.publicKey == p.publicOf(keys.privateKey)
    requires Accepted(manager, sender, "client", now, shownPin, keys, sessionId).0.open
    ensures var start := Begin(manager, sender, client, typedPin, now, shownPin, keys, sessionId);
      (forall steps | forall i :: 0 <= i < |steps| ==> WellDrawn(p, steps[i]) ::
         ApplyAll(p, start, steps).refused == [])
      <==> !client.streaming
  {
    hide Apply, Inv;
    var start := Begin(manager, sender, client, typedPin, now, shownPin, keys, sessionId);
    if client.streaming {
      StreamingClientIsRefused(p, manager, sender, client, typedPin, now, shownPin, keys, sessionId,
                               "ping", now, "token");
      var steps := [UserCommand("ping"), ToServer(now, "token")];
      assert Pairing.IsToken("token");
      assert forall i :: 0 <= i < |steps| ==> WellDrawn(p, steps[i]);
      assert ApplyAll(p, start, steps).refused != [];
    } else {
      BeginInv(p, manager, sender, client, typedPin, now, shownPin, keys, sessionId);
      forall steps | forall i :: 0 <= i < |steps| ==> WellDrawn(p, steps[i])
        ensures ApplyAll(p, start, steps).refused == []
      {
        InvAlways(p, start, steps, shownPin, sessionId);
      }
    }
  }

  /** Conversely a right PIN pairs: three deliveries after the challenge was sent, both sides are paired. */
  lemma RightPinPairs(p: Primitives, manager: Pairing.State, sender: NativeSender.State, client: Client.State,
                      typedPin: string, now: int, shownPin: string, keys: KeyPair, sessionId: uint32,
                      mine: KeyPair, later: int, token: string)
    requires p.Laws() && Pairing.IsPin(shownPin) && Pairing.IsToken(token)
    requires keys.publicKey == p.publicOf(keys.privateKey) && mine.publicKey == p.publicOf(mine.privateKey)
    requires Accepted(manager, sender, "client", now, shownPin, keys, sessionId).0.open
    requires Derive(p, false, keys.publicKey, mine.publicKey, mine.privateKey).Some?
    ensures var start := Begin(manager, sender, client, typedPin, now, shownPin, keys, sessionId);
            var end := Apply(p, Apply(p, Apply(p, start, ToClient(mine)), ToServer(later, token)), ToClient(mine));
      && (end.client.phase == Client.PAIRED <==> typedPin == shownPin)
      && (typedPin == shownPin ==> end.client.token == token && end.conn.authenticated)
  {
    hide Derive, Mirrored, HandleResponse, Pairing.IsPin;
    var start := Begin(manager, sender, client, typedPin, now, shownPin, keys, sessionId);
    var one := Apply(p, start, ToClient(mine));
    assert one.toServer == [PairingResponse(typedPin, p.publicOf(mine.privateKey))] && one.toClient == [];
    assert ClientCommitted(p, one, mine.privateKey);
    assert PhoneChallenging(p, one.conn, shownPin);
    ResponseHandled(p, one, shownPin, mine.privateKey, later, token);
    hide Handle, Begin;
    var two := Apply(p, one, ToServer(later, token));
    assert two.toClient == Handle(p, one.conn, one.toServer[0], later, token).replies;
  }

  // ---- Every run that is played out ----

  /** The client's key pairs work with the phone's key. */
  ghost predicate Derivable(p: Primitives, phoneKey: Key, step: Step)
    requires p.Laws()
  {
    step.ToClient? ==> Derive(p, false, phoneKey, step.mine.publicKey, step.mine.privateKey).Some?
  }

  /** Nothing is lost on the way, and the right PIN is not refused. */
  ghost predicate Live(n: Net, shownPin: string, phoneKey: Key) {
    && n.conn.sender.pending.publicKey == phoneKey
    && match n.client.phase
       case AWAITING_CHALLENGE => n.toClient != []
       case AWAITING_PAIRING_OK => n.client.pin == shownPin && n.toClient != [] ==> n.toClient[0].PairingOk?
       case PAIRED => true
       case DISCONNECTED => n.client.pin != shownPin
  }

  lemma PendingKept(p: Primitives, c: Conn, m: ClientMessage, now: int, token: string)
    requires p.Laws()
    ensures Handle(p, c, m, now, token).conn.sender.pending == c.sender.pending
  {
    hide Derive, Pairing.SameAscii;
  }

  lemma ToClientLives(p: Primitives, n: Net, mine: KeyPair, shownPin: string, sessionId: uint32, phoneKey: Key)
    requires p.Laws() && Inv(p, n, shownPin, sessionId) && Live(n, shownPin, phoneKey)
    requires Derivable(p, phoneKey, ToClient(mine))
    ensures Live(Apply(p, n, ToClient(mine)), shownPin, phoneKey)
  {
    hide Derive, PhonePaired, PhoneChallenging, ReceiverArmed, AllStale, ClientCommitted;
  }

  lemma ToServerLives(p: Primitives, n: Net, now: int, token: string, shownPin: string, sessionId: uint32,
                      phoneKey: Key)
    requires p.Laws() && Inv(p, n, shownPin, sessionId) && Live(n, shownPin, phoneKey) && Pairing.IsToken(token)
    ensures Live(Apply(p, n, ToServer(now, token)), shownPin, phoneKey)
  {
    hide Derive, Mirrored, HandleResponse, Pairing.IsPin;
    if n.toServer != [] {
      PendingKept(p, n.conn, n.toServer[0], now, token);
      if IsStale(n.toServer[0]) {
        StaleRefused(p, n.conn, n.toServer[0], now, token);
      } else if n.client.phase == Client.AWAITING_PAIRING_OK {
        var priv, k: nat :| Responding(p, n, shownPin, priv, k);
        assert k == 0;
        ResponseHandled(p, n, shownPin, priv, now, token);
      }
      hide Handle;
    }
  }

  lemma {:induction false} LiveAlways(p: Primitives, n: Net, steps: seq<Step>, shownPin: string, sessionId: uint32,
                                      phoneKey: Key)
    requires p.Laws() && Inv(p, n, shownPin, sessionId) && Live(n, shownPin, phoneKey)
    requires forall i :: 0 <= i < |steps| ==> WellDrawn(p, steps[i]) && Derivable(p, phoneKey, steps[i])
    ensures Inv(p, ApplyAll(p, n, steps), shownPin, sessionId) && Live(ApplyAll(p, n, steps), shownPin, phoneKey)
    decreases |steps|
  {
    hide Inv, Quiet, Apply, Live, Derivable;
    if steps != [] {
      assert WellDrawn(p, steps[0]) && Derivable(p, phoneKey, steps[0]);
      match steps[0] {
        case ToClient(mine) =>
          ToClientKeeps(p, n, mine, shownPin, sessionId);
          ToClientLives(p, n, mine, shownPin, sessionId, phoneKey);
        case ToServer(now, token) =>
          ToServerKeeps(p, n, now, token, shownPin, sessionId);
          ToServerLives(p, n, now, token, shownPin, sessionId, phoneKey);
        case UserCommand(kind) =>
          UserCommandKeeps(p, n, kind, shownPin, sessionId);
          UserCommandLives(p, n, kind, shownPin, phoneKey);
      }
      LiveAlways(p, Apply(p, n, steps[0]), steps[1..], shownPin, sessionId, phoneKey);
    }
  }

  lemma UserCommandLives(p: Primitives, n: Net, kind: string, shownPin: string, phoneKey: Key)
    requires p.Laws() && Live(n, shownPin, phoneKey)
    ensures Live(Apply(p, n, UserCommand(kind)), shownPin, phoneKey)
  {
  }

  /** With both queues empty, the exchange is over. */
  lemma DrainedIsOver(p: Primitives, n: Net, shownPin: string, sessionId: uint32, phoneKey: Key)
    requires p.Laws() && Inv(p, n, shownPin, sessionId) && Live(n, shownPin, phoneKey)
    requires n.toClient == [] && n.toServer == []
    ensures n.client.phase == Client.PAIRED <==> n.client.pin == shownPin
  {
    hide Derive, Mirrored, PhoneChallenging, ReceiverArmed, ClientCommitted;
  }

  /**
    The PIN decides: every interleaving, whatever the user does meanwhile, that delivers all that is sent ends with
    the client paired if and only if the typed PIN was the one shown. No order of deliveries blocks the exchange.
  */
  lemma DrainedRunPairsIff(p: Primitives, manager: Pairing.State, sender: NativeSender.State, client: Client.State,
                           typedPin: string, now: int, shownPin: string, keys: KeyPair, sessionId: uint32,
                           steps: seq<Step>)
    requires p.Laws() && Pairing.IsPin(shownPin) && keys.publicKey == p.publicOf(keys.privateKey)
    requires Accepted(manager, sender, "client", now, shownPin, keys, sessionId).0.open
    requires forall i :: 0 <= i < |steps| ==> WellDrawn(p, steps[i]) && Derivable(p, keys.publicKey, steps[i])
    requires var n := ApplyAll(p, Begin(manager, sender, client, typedPin, now, shownPin, keys, sessionId), steps);
      n.toClient == [] && n.toServer == []
    ensures var n := ApplyAll(p, Begin(manager, sender, client, typedPin, now, shownPin, keys, sessionId), steps);
      n.client.phase == Client.PAIRED <==> typedPin == shownPin
  {
    hide Apply, Derive, Mirrored, Inv, Derivable;
    var start := Begin(manager, sender, client, typedPin, now, shownPin, keys, sessionId);
    BeginInv(p, manager, sender, client, typedPin, now, shownPin, keys, sessionId);
    LiveAlways(p, start, steps, shownPin, sessionId, keys.publicKey);
    PinKept(p, start, steps);
    DrainedIsOver(p, ApplyAll(p, start, steps), shownPin, sessionId, keys.publicKey);
  }

  // ---- The receiver ----

  /** Pairing touches no media state but the key, the replay history and the session pin. */
  ghost predicate Untouched(s: Reassembler.State, t: Reassembler.State) {
    t.pending == s.pending && t.lastEmitted == s.lastEmitted && t.waiting == s.waiting
  }

  lemma StepUntouched(p: Primitives, n: Net, step: Step)
    requires p.Laws()
    ensures Untouched(n.client.rx, Apply(p, n, step).client.rx)
  {
    hide Handle, Derive;
  }

  lemma {:induction false} MediaUntouched(p: Primitives, n: Net, steps: seq<Step>)
    requires p.Laws()
    ensures Untouched(n.client.rx, ApplyAll(p, n, steps).client.rx)
    decreases |steps|
  {
    if steps != [] {
      StepUntouched(p, n, steps[0]);
      hide Apply;
      MediaUntouched(p, Apply(p, n, steps[0]), steps[1..]);
    }
  }
}
