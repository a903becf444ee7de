/** One control connection on the phone: PIN challenge, then commands behind the token gate. */
module PairingServer {
  import opened Wrappers
  import opened Bytes
  import opened Crypto
  import opened Pairing
  import NativeSender

  /** A parsed line from the client; an empty key stands for an absent one. */
  datatype ClientMessage =
    | PairingResponse(pin: string, clientPubKey: seq<byte>)
    | Command(kind: string, authToken: Option<string>)
    | Unusable // oversized or not JSON

  datatype ServerMessage =
    | PairingChallenge(serverPubKey: seq<byte>, sessionId: uint32)
    | PairingOk(token: string)
    | PairingError(reason: string)
    | Info // anything that is not about pairing

  datatype Conn = Conn(manager: Pairing.State, sender: NativeSender.State, authenticated: bool, open: bool)

  function OpCode(kind: string): nat {
    match kind
    case "hello" => 0x01
    case "capabilities" => 0x02
    case "startStream" => 0x03
    case "stopStream" => 0x04
    case "setZoom" => 0x05
    case "setExposure" => 0x06
    case "setFocus" => 0x07
    case "requestIdr" => 0x08
    case "setBitrate" => 0x09
    case "ping" => 0x0B
    case _ => 0x00
  }

  /** A new connection: its PIN and key pair are drawn by the phone. Locked out, it is refused and closed. */
  function Accepted(manager: Pairing.State, sender: NativeSender.State, client: string, now: int,
                    newPin: string, keys: KeyPair, sessionId: uint32): (Conn, ServerMessage)
  {
    var (m, pin) := AfterStart(manager, client, now, newPin);
    if pin.None? then (Conn(m, sender, false, false), PairingError("locked"))
    else (Conn(m, NativeSender.AfterBegin(sender, keys), false, true), PairingChallenge(keys.publicKey, sessionId))
  }

  /** The end of a connection, however it comes about. */
  function Closed(c: Conn): Conn {
    c.(manager := Pairing.INITIAL, open := false)
  }

  datatype Handled = Handled(conn: Conn, replies: seq<ServerMessage>, dispatched: Option<nat>)

  function HandleResponse(p: Primitives, c: Conn, pin: string, clientPubKey: seq<byte>, now: int, newToken: string)
    : Handled
    requires p.Laws()
  {
    var (m, result) := AfterVerify(c.manager, pin, now, newToken);
    var c1 := c.(manager := m);
    match result
    case OK =>
      if clientPubKey == [] then Handled(c1, [PairingError("invalid_key")], None)
      else
        var (sender, completed) := NativeSender.AfterComplete(p, c.sender, clientPubKey);
        var c2 := c1.(sender := sender);
        if completed && m.token.Some? then Handled(c2.(authenticated := true), [PairingOk(m.token.value)], None)
        else Handled(c2, [PairingError("invalid_key")], None)
    case INVALID_PIN => Handled(c1, [PairingError("invalid_pin")], None)
    case LOCKED_OUT => Handled(Closed(c1), [PairingError("locked")], None)
    case NOT_AWAITING => Handled(c1, [], None)
  }

  /** A command the gate lets through; `hello` is answered with the capabilities. */
  function HandleCommand(c: Conn, kind: string, authToken: Option<string>): Handled {
    if !c.authenticated then Handled(c, [], None)
    else if !TokenAccepted(c.manager, Some(if authToken.Some? then authToken.value else "")) then Handled(c, [], None)
    else Handled(c, if OpCode(kind) == 0x01 then [Info] else [], Some(OpCode(kind)))
  }

  function Handle(p: Primitives, c: Conn, msg: ClientMessage, now: int, newToken: string): Handled
    requires p.Laws()
  {
    if !c.open then Handled(c, [], None)
    else
      match msg
      case Unusable => Handled(c, [], None)
      case PairingResponse(pin, key) =>
        if c.authenticated then Handled(c, [], None) else HandleResponse(p, c, pin, key, now, newToken)
      case Command(kind, token) => HandleCommand(c, kind, token)
  }

  // ---- The gate over whole connections ----

  datatype Line = Line(msg: ClientMessage, now: int, newToken: string)

  function Serve(p: Primitives, c: Conn, lines: seq<Line>): Conn
    requires p.Laws()
  {
    if lines == [] then c
    else
      var last := lines[|lines| - 1];
      Handle(p, Serve(p, c, lines[..|lines| - 1]), last.msg, last.now, last.newToken).conn
  }

  /** Line k carries the connection's PIN and a key that is accepted, and so earns its token. */
  ghost predicate Authenticates(p: Primitives, start: Conn, pin: string, lines: seq<Line>, k: nat)
    requires p.Laws() && k < |lines|
  {
    var before := Serve(p, start, lines[..k]);
    && before.open && !before.authenticated
    && lines[k].msg.PairingResponse? && lines[k].msg.pin == pin
    && lines[k].msg.clientPubKey != []
    && NativeSender.AfterComplete(p, before.sender, lines[k].msg.clientPubKey).1
    && Handle(p, before, lines[k].msg, lines[k].now, lines[k].newToken).replies == [PairingOk(lines[k].newToken)]
  }

  /** What the state of a connection that was given `pin` says about its past. */
  ghost predicate Earned(p: Primitives, start: Conn, pin: string, lines: seq<Line>, c: Conn)
    requires p.Laws()
  {
    && Pairing.Inv(c.manager)
    && (c.open ==> c.manager.pin == Some(pin))
    && (c.authenticated && c.open ==>
          exists k :: 0 <= k < |lines| && Authenticates(p, start, pin, lines, k)
            && c.manager.token == Some(lines[k].newToken))
  }

  lemma AuthenticatesEarlier(p: Primitives, start: Conn, pin: string, lines: seq<Line>, n: nat, k: nat)
    requires p.Laws() && k < n <= |lines| && Authenticates(p, start, pin, lines[..n], k)
    ensures Authenticates(p, start, pin, lines, k)
  {
    assert lines[..n][..k] == lines[..k];
  }

  lemma ResponseAuthenticates(p: Primitives, c: Conn, pin: string, msg: ClientMessage, now: int, newToken: string)
    requires p.Laws() && Pairing.Inv(c.manager) && c.open && !c.authenticated
    requires msg.PairingResponse? && c.manager.pin == Some(pin) && IsPin(pin) && IsToken(newToken)
    ensures var h := Handle(p, c, msg, now, newToken);
      && Pairing.Inv(h.conn.manager) && h.dispatched == None
      && (h.conn.open ==> h.conn.manager.pin == Some(pin))
      && (h.conn.authenticated ==>
            && h.conn.open && msg.pin == pin && msg.clientPubKey != []
            && NativeSender.AfterComplete(p, c.sender, msg.clientPubKey).1
            && h.replies == [PairingOk(newToken)] && h.conn.manager.token == Some(newToken))
  {
    hide NativeSender.AfterComplete;
    SameAsciiIsEquality(msg.pin, pin);
  }

  lemma {:induction false} AlwaysEarned(p: Primitives, start: Conn, pin: string, lines: seq<Line>)
    requires p.Laws() && IsPin(pin)
    requires start.open ==> !start.authenticated && start.manager.pin == Some(pin)
    requires Pairing.Inv(start.manager)
    requires forall i :: 0 <= i < |lines| ==> IsToken(lines[i].newToken)
    ensures Earned(p, start, pin, lines, Serve(p, start, lines))
  {
    hide NativeSender.AfterComplete, HandleResponse;
    if lines != [] {
      var n := |lines| - 1;
      var last := lines[n];
      var c := Serve(p, start, lines[..n]);
      var h := Handle(p, c, last.msg, last.now, last.newToken);
      AlwaysEarned(p, start, pin, lines[..n]);
      if c.open && c.authenticated {
        var k :| 0 <= k < n && Authenticates(p, start, pin, lines[..n], k)
                 && c.manager.token == Some(lines[..n][k].newToken);
        AuthenticatesEarlier(p, start, pin, lines, n, k);
        assert h.conn == c;
      } else if c.open && last.msg.PairingResponse? {
        ResponseAuthenticates(p, c, pin, last.msg, last.now, last.newToken);
        if h.conn.authenticated { assert Authenticates(p, start, pin, lines, n); }
      }
    }
  }

  /**
    Over every message sequence on a connection: a command is dispatched only after a response that carried this
    connection's PIN and an accepted key, and only if it carries the very token issued for that response.
  */
  lemma DispatchIsEarned(p: Primitives, manager: Pairing.State, sender: NativeSender.State, client: string,
                         now: int, pin: string, keys: KeyPair, sessionId: uint32, lines: seq<Line>, n: nat)
    returns (k: nat)
    requires p.Laws() && Pairing.Inv(manager) && IsPin(pin) && n < |lines|
    requires forall i :: 0 <= i < |lines| ==> IsToken(lines[i].newToken)
    requires var start := Accepted(manager, sender, client, now, pin, keys, sessionId).0;
      Handle(p, Serve(p, start, lines[..n]), lines[n].msg, lines[n].now, lines[n].newToken).dispatched.Some?
    ensures k < n
    ensures Authenticates(p, Accepted(manager, sender, client, now, pin, keys, sessionId).0, pin, lines, k)
    ensures lines[n].msg.Command? && lines[n].msg.authToken == Some(lines[k].newToken)
  {
    hide NativeSender.AfterComplete, Serve, HandleResponse;
    var start := Accepted(manager, sender, client, now, pin, keys, sessionId).0;
    var c := Serve(p, start, lines[..n]);
    NoDispatchByResponse(p, c, lines[n]);
    AlwaysEarned(p, start, pin, lines[..n]);
    k :| 0 <= k < n && Authenticates(p, start, pin, lines[..n], k)
         && c.manager.token == Some(lines[..n][k].newToken);
    AuthenticatesEarlier(p, start, pin, lines, n, k);
    var token := lines[n].msg.authToken;
    SameAsciiIsEquality(if token.Some? then token.value else "", lines[k].newToken);
  }

  lemma NoDispatchByResponse(p: Primitives, c: Conn, line: Line)
    requires p.Laws() && Handle(p, c, line.msg, line.now, line.newToken).dispatched.Some?
    ensures c.open && c.authenticated && line.msg.Command?
  {
  }

  // ---- The accept loop ----

  /** One client's visit, from accept to disconnect. */
  datatype Visit = Visit(client: string, now: int, newPin: string, keys: KeyPair, lines: seq<Line>, end: int)

  /** The manager after a visit: a refused one leaves it alone, any other ends in a reset. */
  function AfterVisit(p: Primitives, manager: Pairing.State, sender: NativeSender.State, v: Visit)
    : (Pairing.State, NativeSender.State)
    requires p.Laws()
  {
    var start := Accepted(manager, sender, v.client, v.now, v.newPin, v.keys, 0).0;
    if !start.open then (start.manager, start.sender)
    else
      var end := Serve(p, start, v.lines);
      (Closed(end).manager, end.sender)
  }

  function AfterVisits(p: Primitives, manager: Pairing.State, sender: NativeSender.State, visits: seq<Visit>)
    : (Pairing.State, NativeSender.State)
    requires p.Laws()
  {
    if visits == [] then (manager, sender)
    else
      var (m, s) := AfterVisits(p, manager, sender, visits[..|visits| - 1]);
      AfterVisit(p, m, s, visits[|visits| - 1])
  }

  /**
    Every connection gets a PIN: closing one resets the manager, so neither a lockout nor its attempt count
    outlives the connection on which it was reached.
  */
  lemma {:induction false} EveryVisitGetsPin(p: Primitives, visits: seq<Visit>, next: Visit)
    requires p.Laws()
    ensures var (m, s) := AfterVisits(p, Pairing.INITIAL, NativeSender.INITIAL, visits);
      && m == Pairing.INITIAL
      && Accepted(m, s, next.client, next.now, next.newPin, next.keys, 0).0.open
  {
    hide Serve;
    if visits != [] {
      var n := |visits| - 1;
      EveryVisitGetsPin(p, visits[..n], visits[n]);
    }
  }

  // ---- Guesses over connections ----

  const WRONG_PIN: ServerMessage := PairingError("invalid_pin")

  /** How many lines of a connection are answered with "wrong PIN". */
  function WrongPins(p: Primitives, c: Conn, lines: seq<Line>): nat
    requires p.Laws()
  {
    if lines == [] then 0
    else
      var last := lines[|lines| - 1];
      var before := lines[..|lines| - 1];
      var replies := Handle(p, Serve(p, c, before), last.msg, last.now, last.newToken).replies;
      WrongPins(p, c, before) + if replies == [WRONG_PIN] then 1 else 0
  }

  function VisitWrongPins(p: Primitives, manager: Pairing.State, sender: NativeSender.State, v: Visit): nat
    requires p.Laws()
  {
    var start := Accepted(manager, sender, v.client, v.now, v.newPin, v.keys, 0).0;
    if start.open then WrongPins(p, start, v.lines) else 0
  }

  function WrongPinsOver(p: Primitives, manager: Pairing.State, sender: NativeSender.State, visits: seq<Visit>): nat
    requires p.Laws()
  {
    if visits == [] then 0
    else
      var before := visits[..|visits| - 1];
      var (m, s) := AfterVisits(p, manager, sender, before);
      WrongPinsOver(p, manager, sender, before) + VisitWrongPins(p, m, s, visits[|visits| - 1])
  }

  /** A clock that never goes back, within [from, to]. */
  ghost predicate Timed(lines: seq<Line>, from: int, to: int) {
    && from <= to
    && (forall i :: 0 <= i < |lines| ==> from <= lines[i].now <= to)
    && forall i, j :: 0 <= i < j < |lines| ==> lines[i].now <= lines[j].now
  }

  /** One connection at a time, as the accept loop serves them, within [from, to]. */
  ghost predicate Sequential(visits: seq<Visit>, from: int, to: int) {
    && from <= to
    && (forall i :: 0 <= i < |visits| ==>
          from <= visits[i].now && visits[i].end <= to && Timed(visits[i].lines, visits[i].now, visits[i].end))
    && forall i, j :: 0 <= i < j < |visits| ==> visits[i].end <= visits[j].now
  }

  /** As long as a connection is open and its PIN not found, its wrong PINs keep the lockout's pace. */
  ghost predicate Slow(c: Conn, from: int, now: int, wrong: nat, locks: nat) {
    && from <= now
    && wrong <= MAX_ATTEMPTS * (1 + (now - from) / LOCKOUT_MS)
    && (c.open && c.manager.phase != PAIRED ==> Paced(c.manager, from, now, wrong, locks))
  }

  lemma PacedLater(s: Pairing.State, from: int, now: int, later: int, wrong: nat, locks: nat)
    requires Paced(s, from, now, wrong, locks) && now <= later
    ensures Paced(s, from, later, wrong, locks)
  {
  }

  /** A response on an open connection whose PIN is not found is a call of VerifyPin, answered with its result. */
  lemma ResponseIsVerify(p: Primitives, c: Conn, line: Line)
    requires p.Laws() && c.open && !c.authenticated && line.msg.PairingResponse?
    ensures var h := Handle(p, c, line.msg, line.now, line.newToken);
            var op := Verify(line.msg.pin, line.now, line.newToken);
      && (h.conn.open ==> h.conn.manager == Apply(c.manager, op))
      && (h.replies == [WRONG_PIN] <==> IsInvalid(c.manager, op))
      && (IsSuccess(c.manager, op) ==> h.conn.manager.phase == PAIRED)
  {
    hide NativeSender.AfterComplete, SameAscii;
  }

  lemma OthersAreIdle(p: Primitives, c: Conn, line: Line)
    requires p.Laws() && (!c.open || c.authenticated || !line.msg.PairingResponse?)
    ensures var h := Handle(p, c, line.msg, line.now, line.newToken);
      h.conn == c && h.replies != [WRONG_PIN]
  {
  }

  lemma FoundIsIdle(s: Pairing.State, op: Op)
    requires s.phase == PAIRED && op.Verify?
    ensures Apply(s, op) == s && !IsInvalid(s, op)
  {
  }

  lemma SlowStep(p: Primitives, c: Conn, line: Line, from: int, now: int, wrong: nat, locks: nat)
    returns (locks': nat)
    requires p.Laws() && Slow(c, from, now, wrong, locks) && now <= line.now
    ensures var h := Handle(p, c, line.msg, line.now, line.newToken);
      Slow(h.conn, from, line.now, wrong + (if h.replies == [WRONG_PIN] then 1 else 0), locks')
  {
    hide Handle, Paced, IsSuccess, IsInvalid, Pairing.Apply;
    locks' := locks;
    LaterBound(now - from, line.now - from);
    if !c.open || c.authenticated || !line.msg.PairingResponse? {
      OthersAreIdle(p, c, line);
      if c.open && c.manager.phase != PAIRED { PacedLater(c.manager, from, now, line.now, wrong, locks); }
    } else {
      var op := Verify(line.msg.pin, line.now, line.newToken);
      ResponseIsVerify(p, c, line);
      if c.manager.phase == PAIRED {
        FoundIsIdle(c.manager, op);
      } else if !IsSuccess(c.manager, op) {
        locks' := PacedStep(c.manager, op, from, now, wrong, locks);
        PacedBound(Apply(c.manager, op), from, line.now, wrong + (if IsInvalid(c.manager, op) then 1 else 0), locks');
      } else {
        SuccessIsValid(c.manager, op);
      }
    }
  }

  lemma SuccessIsValid(s: Pairing.State, op: Op)
    requires IsSuccess(s, op)
    ensures !IsInvalid(s, op)
  {
  }

  lemma LaterBound(d: nat, e: nat)
    requires d <= e
    ensures d / LOCKOUT_MS <= e / LOCKOUT_MS
  {
  }

  lemma SlowAtFirst(c: Conn, from: int)
    ensures Slow(c, from, from, 0, 0)
  {
  }

  lemma {:induction false} SlowAlways(p: Primitives, c: Conn, lines: seq<Line>, from: int, to: int)
    returns (now: int, locks: nat)
    requires p.Laws() && Timed(lines, from, to)
    ensures now <= to && (forall i :: 0 <= i < |lines| ==> lines[i].now <= now)
    ensures now == if lines == [] then from else lines[|lines| - 1].now
    ensures Slow(Serve(p, c, lines), from, now, WrongPins(p, c, lines), locks)
  {
    hide Handle, Slow;
    if lines == [] {
      now, locks := from, 0;
      SlowAtFirst(c, from);
    } else {
      var n := |lines| - 1;
      now, locks := SlowAlways(p, c, lines[..n], from, to);
      locks := SlowStep(p, Serve(p, c, lines[..n]), lines[n], from, now, WrongPins(p, c, lines[..n]), locks);
      now := lines[n].now;
    }
  }

  /** One connection: at most five wrong PINs per started 30 seconds, whatever state the manager was in. */
  lemma VisitRateBound(p: Primitives, manager: Pairing.State, sender: NativeSender.State, v: Visit)
    requires p.Laws() && Timed(v.lines, v.now, v.end)
    ensures VisitWrongPins(p, manager, sender, v) <= MAX_ATTEMPTS * (1 + (v.end - v.now) / LOCKOUT_MS)
  {
    hide Handle, WrongPins, Serve;
    var start := Accepted(manager, sender, v.client, v.now, v.newPin, v.keys, 0).0;
    var now, locks := SlowAlways(p, start, v.lines, v.now, v.end);
    LaterBound(now - v.now, v.end - v.now);
  }

  lemma PeriodsAdd(a: nat, b: nat)
    ensures a / LOCKOUT_MS + b / LOCKOUT_MS <= (a + b) / LOCKOUT_MS
  {
  }

  /** Over connections served one after the other, each one adds five to the bound. */
  lemma {:induction false} VisitsRateBound(p: Primitives, manager: Pairing.State, sender: NativeSender.State,
                                           visits: seq<Visit>, from: int, to: int)
    requires p.Laws() && Sequential(visits, from, to)
    ensures WrongPinsOver(p, manager, sender, visits) <= MAX_ATTEMPTS * (|visits| + (to - from) / LOCKOUT_MS)
  {
    hide VisitWrongPins, AfterVisit;
    if visits == [] {
      LaterBound(0, to - from);
    } else {
      var n := |visits| - 1;
      var v := visits[n];
      var (m, s) := AfterVisits(p, manager, sender, visits[..n]);
      VisitRateBound(p, m, s, v);
      BeforeLast(visits, from, to);
      hide Sequential, Timed;
      VisitsRateBound(p, manager, sender, visits[..n], from, v.now);
      hide AfterVisits, WrongPinsOver;
      PeriodsAdd(v.now - from, v.end - v.now);
      LaterBound(v.end - from, to - from);
    }
  }

  lemma BeforeLast(visits: seq<Visit>, from: int, to: int)
    requires Sequential(visits, from, to) && visits != []
    ensures var n := |visits| - 1;
      Sequential(visits[..n], from, visits[n].now) && from <= visits[n].now <= visits[n].end <= to
  {
  }

  /** Five empty PINs at one clock reading. */
  function Guesses(now: int, n: nat): (lines: seq<Line>)
    ensures |lines| == n
  {
    if n == 0 then [] else Guesses(now, n - 1) + [Line(PairingResponse("", []), now, "")]
  }

  /** Connections at one clock reading, for the PINs and keys that the phone draws. */
  function Reconnections(now: int, draws: seq<(string, KeyPair)>): (visits: seq<Visit>)
    ensures |visits| == |draws|
  {
    if draws == [] then []
    else
      var (pin, keys) := draws[|draws| - 1];
      Reconnections(now, draws[..|draws| - 1]) + [Visit("", now, pin, keys, Guesses(now, MAX_ATTEMPTS), now)]
  }

  lemma GuessCounts(p: Primitives, c: Conn, now: int)
    requires p.Laws() && c.open && !c.authenticated
    requires c.manager.phase == AWAITING_PIN && c.manager.pin.Some? && IsPin(c.manager.pin.value)
    ensures var h := Handle(p, c, PairingResponse("", []), now, "");
      && h.replies == [WRONG_PIN] && h.conn.open && !h.conn.authenticated
      && h.conn.manager.pin == c.manager.pin && h.conn.manager.failedAttempts == c.manager.failedAttempts + 1
      && (c.manager.failedAttempts + 1 < MAX_ATTEMPTS ==> h.conn.manager.phase == AWAITING_PIN)
  {
    assert !SameAscii("", c.manager.pin.value);
  }

  lemma {:induction false} GuessesCount(p: Primitives, c: Conn, now: int, n: nat)
    requires p.Laws() && n <= MAX_ATTEMPTS && c.open && !c.authenticated
    requires c.manager.phase == AWAITING_PIN && c.manager.failedAttempts == 0
    requires c.manager.pin.Some? && IsPin(c.manager.pin.value)
    ensures WrongPins(p, c, Guesses(now, n)) == n
    ensures var end := Serve(p, c, Guesses(now, n));
      && end.open && !end.authenticated && end.manager.failedAttempts == n && end.manager.pin == c.manager.pin
      && (n < MAX_ATTEMPTS ==> end.manager.phase == AWAITING_PIN)
  {
    hide Handle, IsPin, Guesses, Serve, WrongPins;
    if n == 0 {
      ServeNone(p, c, Guesses(now, 0));
    } else {
      var before := Guesses(now, n - 1);
      GuessesCount(p, c, now, n - 1);
      GuessesSnoc(now, n);
      GuessCounts(p, Serve(p, c, before), now);
      ServeSnoc(p, c, before, Line(PairingResponse("", []), now, ""));
    }
  }

  lemma GuessesSnoc(now: int, n: nat)
    requires n > 0
    ensures Guesses(now, n) == Guesses(now, n - 1) + [Line(PairingResponse("", []), now, "")]
  {
  }

  lemma ServeNone(p: Primitives, c: Conn, lines: seq<Line>)
    requires p.Laws() && lines == []
    ensures Serve(p, c, lines) == c && WrongPins(p, c, lines) == 0
  {
  }

  lemma ServeSnoc(p: Primitives, c: Conn, lines: seq<Line>, last: Line)
    requires p.Laws()
    ensures var h := Handle(p, Serve(p, c, lines), last.msg, last.now, last.newToken);
      && Serve(p, c, lines + [last]) == h.conn
      && WrongPins(p, c, lines + [last]) == WrongPins(p, c, lines) + if h.replies == [WRONG_PIN] then 1 else 0
  {
    hide Handle;
    assert (lines + [last])[..|lines|] == lines;
  }

  lemma {:induction false} GuessesTimed(now: int, n: nat)
    ensures Timed(Guesses(now, n), now, now)
  {
    if n > 0 { GuessesTimed(now, n - 1); }
  }

  lemma VisitOfFive(p: Primitives, m: Pairing.State, sender: NativeSender.State, now: int, pin: string, keys: KeyPair)
    requires p.Laws() && m == Pairing.INITIAL && IsPin(pin)
    ensures VisitWrongPins(p, m, sender, Visit("", now, pin, keys, Guesses(now, MAX_ATTEMPTS), now)) == MAX_ATTEMPTS
  {
    hide WrongPins, Serve, Guesses;
    GuessesCount(p, Accepted(m, sender, "", now, pin, keys, 0).0, now, MAX_ATTEMPTS);
  }

  lemma SequentialSnoc(visits: seq<Visit>, now: int)
    requires visits != [] && Sequential(visits[..|visits| - 1], now, now)
    requires var v := visits[|visits| - 1]; v.now == v.end == now && Timed(v.lines, now, now)
    ensures Sequential(visits, now, now)
  {
    forall i | 0 <= i < |visits|
      ensures visits[i].now == visits[i].end == now && Timed(visits[i].lines, now, now)
    {
      if i < |visits| - 1 { assert visits[i] == visits[..|visits| - 1][i]; }
    }
  }

  /** And it is attained: k connections try 5k PINs without the clock moving on. */
  lemma {:induction false} VisitsRateAttained(p: Primitives, now: int, draws: seq<(string, KeyPair)>)
    requires p.Laws() && forall i :: 0 <= i < |draws| ==> IsPin(draws[i].0)
    ensures var visits := Reconnections(now, draws);
      && Sequential(visits, now, now)
      && WrongPinsOver(p, Pairing.INITIAL, NativeSender.INITIAL, visits) == MAX_ATTEMPTS * |draws|
  {
    hide VisitWrongPins, AfterVisit, Timed, Guesses, IsPin, Accepted;
    if draws != [] {
      var n := |draws| - 1;
      var visits := Reconnections(now, draws);
      VisitsRateAttained(p, now, draws[..n]);
      GuessesTimed(now, MAX_ATTEMPTS);
      assert visits[..n] == Reconnections(now, draws[..n]);
      EveryVisitGetsPin(p, visits[..n], visits[n]);
      SequentialSnoc(visits, now);
      hide Sequential;
      var (m, s) := AfterVisits(p, Pairing.INITIAL, NativeSender.INITIAL, visits[..n]);
      VisitOfFive(p, m, s, now, draws[n].0, draws[n].1);
    }
  }

  // ---- After the lockout ----

  /** A visit is refused exactly during a lockout, and then leaves all as it was; otherwise it is challenged. */
  lemma VisitRefusedIff(manager: Pairing.State, sender: NativeSender.State, client: string, now: int, pin: string,
                        keys: KeyPair, sessionId: uint32)
    requires IsPin(pin)
    ensures var (c, m) := Accepted(manager, sender, client, now, pin, keys, sessionId);
      && !c.authenticated
      && if manager.phase == LOCKED && now < manager.lockUntilMs then
           m == PairingError("locked") && !c.open && c.manager == manager && c.sender == sender
         else
           && m == PairingChallenge(keys.publicKey, sessionId) && c.open
           && Showing(c.manager, pin, manager.failedAttempts) && c.manager.token == None
           && c.sender.pending == keys && c.sender.crypto == Some(None) && c.sender.mode == sender.mode
  {
  }

  /** Responses, none of them with the connection's PIN. */
  ghost predicate AllWrong(lines: seq<Line>, pin: string) {
    forall i :: 0 <= i < |lines| ==> lines[i].msg.PairingResponse? && lines[i].msg.pin != pin
  }

  /** Up to five of them are answered, count, and leave the rest of the connection alone; the fifth one locks. */
  lemma {:induction false} WrongLines(p: Primitives, c: Conn, pin: string, lines: seq<Line>)
    requires p.Laws() && c.open && !c.authenticated && Showing(c.manager, pin, 0)
    requires AllWrong(lines, pin) && |lines| <= 5
    ensures WrongPins(p, c, lines) == |lines|
    ensures Serve(p, c, lines) == c.(manager := c.manager.(
      failedAttempts := |lines|,
      phase := if |lines| == 5 then LOCKED else AWAITING_PIN,
      lockUntilMs := if |lines| == 5 then lines[4].now + 30_000 else c.manager.lockUntilMs))
  {
    if lines != [] {
      hide NativeSender.AfterComplete, AfterVerify, IsPin;
      var n := |lines| - 1;
      var last := lines[n];
      WrongLines(p, c, pin, lines[..n]);
      ShownPinVerdict(Serve(p, c, lines[..n]).manager, pin, n, last.msg.pin, last.now, last.newToken);
    }
  }

  /**
    A whole connection: five wrong PINs, then the shown one with a key that is accepted. It pairs the client if and
    only if it comes 30 seconds after the fifth wrong PIN or later; before that it ends the connection.
  */
  lemma PairsAfterLockoutIff(p: Primitives, sender: NativeSender.State, client: string, now: int, pin: string,
                             keys: KeyPair, sessionId: uint32, wrong: seq<Line>, key: seq<byte>, later: int,
                             newToken: string)
    requires p.Laws() && IsPin(pin) && AllWrong(wrong, pin) && |wrong| == 5
    requires key != [] && NativeSender.AfterComplete(p, NativeSender.AfterBegin(sender, keys), key).1
    ensures var start := Accepted(Pairing.INITIAL, sender, client, now, pin, keys, sessionId).0;
            var h := Handle(p, Serve(p, start, wrong), PairingResponse(pin, key), later, newToken);
      && (h.replies == [PairingOk(newToken)] <==> later >= wrong[4].now + 30_000)
      && (later >= wrong[4].now + 30_000 ==> h.conn.open && h.conn.authenticated)
      && (later < wrong[4].now + 30_000 ==>
            h.replies == [PairingError("locked")] && !h.conn.open && h.conn.manager == Pairing.INITIAL)
  {
    hide NativeSender.AfterComplete, Serve, AllWrong;
    var start := Accepted(Pairing.INITIAL, sender, client, now, pin, keys, sessionId).0;
    WrongLines(p, start, pin, wrong);
    SameAsciiIsEquality(pin, pin);
  }

  /** A right PIN whose key was not accepted is used up: whatever is sent on that connection has no effect any more. */
  lemma {:induction false} UnusableKeyEndsPairing(p: Primitives, c: Conn, lines: seq<Line>)
    requires p.Laws() && c.open && !c.authenticated && c.manager.phase == PAIRED
    ensures Serve(p, c, lines) == c
  {
    if lines != [] {
      UnusableKeyEndsPairing(p, c, lines[..|lines| - 1]);
    }
  }

  /** The shown PIN earns its token exactly if the key is accepted, and is used up either way. */
  lemma UnusableKeyRefused(p: Primitives, c: Conn, pin: string, n: nat, key: seq<byte>, now: int, newToken: string)
    requires p.Laws() && c.open && !c.authenticated && Showing(c.manager, pin, n)
    ensures var h := Handle(p, c, PairingResponse(pin, key), now, newToken);
            var accepted := key != [] && NativeSender.AfterComplete(p, c.sender, key).1;
      && h.replies == [if accepted then PairingOk(newToken) else PairingError("invalid_key")]
      && h.conn.open && h.conn.manager.phase == PAIRED && (h.conn.authenticated <==> accepted)
      && (key == [] ==> h.conn.sender == c.sender)
      && (key != [] ==> h.conn.sender == NativeSender.AfterComplete(p, c.sender, key).0)
  {
    hide NativeSender.AfterComplete, AfterVerify, IsPin;
    ShownPinVerdict(c.manager, pin, n, pin, now, newToken);
  }

  // ---- Commands ----

  /** The command codes that the native protocol defines and the phone knows by name. */
  const COMMANDS: seq<(string, nat)> := [
    ("hello", 1), ("capabilities", 2), ("startStream", 3), ("stopStream", 4), ("setZoom", 5), ("setExposure", 6),
    ("setFocus", 7), ("requestIdr", 8), ("setBitrate", 9), ("ping", 11)]

  /** A paired connection dispatches a command exactly when it carries the token, under its code, 0 if unknown. */
  lemma CommandOutcome(p: Primitives, c: Conn, token: string, kind: string, carried: Option<string>, now: int,
                       newToken: string)
    requires p.Laws() && c.open && c.authenticated && c.manager.token == Some(token) && IsToken(token)
    ensures var h := Handle(p, c, Command(kind, carried), now, newToken);
      && h.conn == c
      && (h.dispatched.Some? <==> carried == Some(token))
      && (h.dispatched.Some? ==>
            if exists i :: 0 <= i < |COMMANDS| && COMMANDS[i].0 == kind then (kind, h.dispatched.value) in COMMANDS
            else h.dispatched.value == 0)
      && h.replies == (if h.dispatched.Some? && kind == "hello" then [Info] else [])
  {
    SameAsciiIsEquality(if carried.Some? then carried.value else "", token);
    CodesAgree(kind);
    hide SameAscii;
  }

  lemma CodesAgree(kind: string)
    ensures (exists i :: 0 <= i < |COMMANDS| && COMMANDS[i].0 == kind) ==> (kind, OpCode(kind)) in COMMANDS
    ensures !(exists i :: 0 <= i < |COMMANDS| && COMMANDS[i].0 == kind) ==> OpCode(kind) == 0
    ensures OpCode(kind) == 1 <==> kind == "hello"
  {
    assert COMMANDS[0].0 == "hello" && COMMANDS[1].0 == "capabilities" && COMMANDS[2].0 == "startStream"
        && COMMANDS[3].0 == "stopStream" && COMMANDS[4].0 == "setZoom" && COMMANDS[5].0 == "setExposure"
        && COMMANDS[6].0 == "setFocus" && COMMANDS[7].0 == "requestIdr" && COMMANDS[8].0 == "setBitrate"
        && COMMANDS[9].0 == "ping";
  }

  // ---- The mutable connection ----

  class ControlConnection {
    const pairingManager: PairingManager
    const native: NativeSender.NativeSenderContext
    var authenticated: bool
    var open: bool

    ghost predicate Valid()
      reads this, native, native.packetizer
    {
      native.Valid()
    }

    constructor (manager: PairingManager, native: NativeSender.NativeSenderContext)
      requires native.Valid()
      ensures Valid() && pairingManager == manager && this.native == native && !authenticated && !open
    {
      pairingManager, this.native := manager, native;
      authenticated, open := false, false;
    }

    function Value(): Conn
      reads this, pairingManager, native, native.crypto, native.packetizer`crypto, native.packetizer.crypto
    {
      Conn(pairingManager.Value(), native.Value(), authenticated, open)
    }

    method Accept(client: string, now: int, newPin: string, keys: KeyPair, sessionId: uint32) returns (m: ServerMessage)
      requires Valid() && !authenticated && !open
      modifies this`open, pairingManager, native`pendingKeys, native`crypto
      ensures Valid()
      ensures (Value(), m)
           == Accepted(old(pairingManager.Value()), old(native.Value()), client, now, newPin, keys, sessionId)
    {
      var pin := pairingManager.StartPairing(client, now, newPin);
      if pin.None? {
        return PairingError("locked");
      }
      var publicKey := native.BeginPairing(keys);
      open := true;
      m := PairingChallenge(publicKey, sessionId);
    }

    method HandleLine(msg: ClientMessage, now: int, newToken: string)
      returns (replies: seq<ServerMessage>, dispatched: Option<nat>)
      requires Valid() && open
      modifies this, pairingManager, native`crypto, native.crypto, native.packetizer`crypto
      ensures Valid()
      ensures Handled(Value(), replies, dispatched) == Handle(native.primitives, old(Value()), msg, now, newToken)
    {
      replies, dispatched := [], None;
      match msg
      case Unusable =>
      case PairingResponse(pin, key) =>
        if !authenticated {
          replies := OnPairingResponse(pin, key, now, newToken);
        }
      case Command(kind, token) =>
        if authenticated {
          var valid := pairingManager.IsTokenValid(Some(if token.Some? then token.value else ""));
          if valid {
            dispatched := Some(OpCode(kind));
            replies := if OpCode(kind) == 0x01 then [Info] else [];
          }
        }
    }

    method OnPairingResponse(pin: string, clientPubKey: seq<byte>, now: int, newToken: string)
      returns (replies: seq<ServerMessage>)
      requires Valid() && open
      modifies this, pairingManager, native`crypto, native.crypto, native.packetizer`crypto
      ensures Valid()
      ensures Handled(Value(), replies, None)
           == HandleResponse(native.primitives, old(Value()), pin, clientPubKey, now, newToken)
    {
      hide SameAscii, Derive;
      var result := pairingManager.VerifyPin(pin, now, newToken);
      match result
      case OK =>
        var completed := false;
        if clientPubKey != [] {
          completed := native.CompletePairing(clientPubKey);
        }
        if completed && pairingManager.authToken.Some? {
          replies := [PairingOk(pairingManager.authToken.value)];
          authenticated := true;
        } else {
          replies := [PairingError("invalid_key")];
        }
      case INVALID_PIN => replies := [PairingError("invalid_pin")];
      case LOCKED_OUT =>
        replies := [PairingError("locked")];
        Disconnected();
      case NOT_AWAITING => replies := [];
    }

    /** The read loop has ended. */
    method Disconnected()
      modifies this`open, pairingManager
      ensures Valid() == old(Valid())
      ensures Value() == Closed(old(Value()))
    {
      pairingManager.Reset();
      open := false;
    }
  }
}
