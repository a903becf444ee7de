/** Choice of the active transport: by rank in AUTO mode, untouched in a pinned mode. Float metrics are reals. */
module TransportManager {

  /** The enum's values, which order the transport map. */
  datatype TransportType = AUTO | USB | WIFI_LAN | WIFI_DIRECT | BLUETOOTH

  datatype TransportState = DISCONNECTED | CONNECTING | CONNECTED | DEGRADED | FAILED

  const NO_SCORE: int := 99999

  function Ordinal(t: TransportType): nat {
    match t
    case AUTO => 0
    case USB => 1
    case WIFI_LAN => 2
    case WIFI_DIRECT => 3
    case BLUETOOTH => 4
  }

  function OfOrdinal(i: nat): (t: TransportType)
    requires i < 5
    ensures forall u :: Ordinal(u) == i <==> u == t
  {
    if i == 0 then AUTO
    else if i == 1 then USB
    else if i == 2 then WIFI_LAN
    else if i == 3 then WIFI_DIRECT
    else BLUETOOTH
  }

  /** A float-to-int cast. */
  function Truncate(x: real): int {
    if x >= 0.0 then x.Floor else -(-x).Floor
  }

  /** Lower is better. */
  function CalculateRank(t: TransportType, rttMs: real, packetLossPercent: real): int {
    var base := match t
      case USB => 10
      case WIFI_LAN => 20
      case WIFI_DIRECT => 30
      case BLUETOOTH => 50
      case AUTO => 100;
    base + Truncate(rttMs) + Truncate(packetLossPercent * 5.0)
  }

  /** Whole milliseconds and whole fifths of a percent, rounded down, on top of a base that prefers the wire. */
  lemma RankIs(t: TransportType, rttMs: real, packetLossPercent: real, ms: nat, fifths: nat)
    requires ms as real <= rttMs < ms as real + 1.0
    requires fifths as real <= packetLossPercent * 5.0 < fifths as real + 1.0
    ensures var rank := CalculateRank(t, rttMs, packetLossPercent) - ms - fifths;
      && (rank == 10 <==> t == USB) && (rank == 20 <==> t == WIFI_LAN) && (rank == 30 <==> t == WIFI_DIRECT)
      && (rank == 50 <==> t == BLUETOOTH) && (rank == 100 <==> t == AUTO)
  {
    RoundsDown(rttMs, ms);
    RoundsDown(packetLossPercent * 5.0, fifths);
  }

  lemma RoundsDown(x: real, n: nat)
    requires n as real <= x < n as real + 1.0
    ensures Truncate(x) == n
  {
  }

  /** So a delay of at least 11 ms on a lossless wire - no less - makes an idle wireless LAN the better transport. */
  lemma WireYieldsIff(rttMs: real)
    requires rttMs >= 0.0
    ensures CalculateRank(WIFI_LAN, 0.0, 0.0) < CalculateRank(USB, rttMs, 0.0) <==> rttMs >= 11.0
  {
    RankIs(WIFI_LAN, 0.0, 0.0, 0, 0);
    RankIs(USB, rttMs, 0.0, rttMs.Floor, 0);
  }

  /** With equal metrics the wire wins, then LAN, Wi-Fi Direct and Bluetooth. */
  lemma WireFirst(rttMs: real, packetLossPercent: real)
    ensures CalculateRank(USB, rttMs, packetLossPercent) < CalculateRank(WIFI_LAN, rttMs, packetLossPercent)
         < CalculateRank(WIFI_DIRECT, rttMs, packetLossPercent) < CalculateRank(BLUETOOTH, rttMs, packetLossPercent)
         < CalculateRank(AUTO, rttMs, packetLossPercent)
  {
  }

  /** A transport as the manager sees it: its owner changes state and metrics at will. */
  class Transport {
    const kind: TransportType
    var state: TransportState
    var rttMs: real
    var packetLossPercent: real

    constructor (kind: TransportType, state: TransportState, rttMs: real, packetLossPercent: real)
      ensures this.kind == kind && this.state == state
      ensures this.rttMs == rttMs && this.packetLossPercent == packetLossPercent
    {
      this.kind, this.state, this.rttMs, this.packetLossPercent := kind, state, rttMs, packetLossPercent;
    }
  }

  class AutoTransportManager {
    var transports: map<TransportType, Transport>
    var activeTransport: Transport?
    var preferredMode: TransportType

    constructor ()
      ensures transports == map[] && activeTransport == null && preferredMode == AUTO
    {
      transports, activeTransport, preferredMode := map[], null, AUTO;
    }

    function Rank(t: TransportType): int
      requires t in transports
      reads this`transports, transports[t]
    {
      CalculateRank(t, transports[t].rttMs, transports[t].packetLossPercent)
    }

    /** Connected, and better than the score that stands for no candidate. */
    predicate Eligible(t: TransportType)
      reads this`transports, transports.Values
    {
      t in transports && transports[t].state == CONNECTED && Rank(t) < NO_SCORE
    }

    /** The eligible transport that no other beats: least rank, ties to the lowest type. */
    ghost predicate Best(t: TransportType)
      reads this`transports, transports.Values
    {
      && Eligible(t)
      && forall u :: Eligible(u) ==> Rank(t) < Rank(u) || (Rank(t) == Rank(u) && Ordinal(t) <= Ordinal(u))
    }

    method RegisterTransport(transport: Transport)
      modifies this`transports, this`activeTransport
      ensures transports == old(transports)[transport.kind := transport]
      ensures activeTransport ==
        if (old(activeTransport) == null || old(activeTransport).state != CONNECTED) && transport.state == CONNECTED
        then transport else old(activeTransport)
    {
      transports := transports[transport.kind := transport];
      if activeTransport == null || activeTransport.state != CONNECTED {
        if transport.state == CONNECTED {
          activeTransport := transport;
        }
      }
    }

    method SetPreferredTransportMode(mode: TransportType)
      modifies this`preferredMode, this`activeTransport
      ensures preferredMode == mode
      ensures activeTransport ==
        if mode != AUTO && mode in transports && transports[mode].state == CONNECTED
        then transports[mode] else old(activeTransport)
    {
      preferredMode := mode;
      if mode != AUTO {
        if mode in transports && transports[mode].state == CONNECTED {
          activeTransport := transports[mode];
        }
      }
    }

    /**
      In AUTO mode with an eligible transport, the best one becomes active, and the result says whether that was a
      change; otherwise nothing happens.
    */
    method EvaluateAndHandoff() returns (changed: bool)
      modifies this`activeTransport
      ensures preferredMode == AUTO && (exists t :: Eligible(t)) ==>
        && (exists t :: Best(t) && activeTransport == transports[t])
        && (changed <==> activeTransport != old(activeTransport))
      ensures preferredMode != AUTO || !(exists t :: Eligible(t)) ==>
        !changed && activeTransport == old(activeTransport)
    {
      if preferredMode != AUTO {
        return false;
      }
      var bestCandidate: Transport? := null;
      var bestScore := NO_SCORE;
      ghost var best := AUTO;
      var i := 0;
      while i < 5
        invariant 0 <= i <= 5 && bestScore <= NO_SCORE && (bestCandidate == null ==> bestScore == NO_SCORE)
        invariant forall u :: Eligible(u) && Ordinal(u) < i ==>
          bestCandidate != null && (bestScore < Rank(u) || (bestScore == Rank(u) && Ordinal(best) <= Ordinal(u)))
        invariant bestCandidate != null ==>
          Eligible(best) && bestCandidate == transports[best] && bestScore == Rank(best) && Ordinal(best) < i
      {
        var t := OfOrdinal(i);
        if t in transports && transports[t].state == CONNECTED {
          var score := CalculateRank(t, transports[t].rttMs, transports[t].packetLossPercent);
          if score < bestScore {
            bestScore := score;
            bestCandidate := transports[t];
            best := t;
          }
        }
        i := i + 1;
      }
      assert forall u: TransportType :: Ordinal(u) < 5;
      assert bestCandidate != null ==> Best(best);
      if bestCandidate != null && bestCandidate != activeTransport {
        activeTransport := bestCandidate;
        assert Eligible(best);
        return true;
      }
      changed := false;
    }

    /** The best transport is unique, so the choice is a function of the metrics. */
    lemma BestUnique(t: TransportType, u: TransportType)
      requires Best(t) && Best(u)
      ensures t == u
    {
      assert Ordinal(t) == Ordinal(u);
    }
  }

  /** An immediate second evaluation, with unchanged states and metrics, never hands off. */
  method EvaluateTwice(m: AutoTransportManager) returns (first: bool, second: bool)
    modifies m`activeTransport
    ensures !second
  {
    first := m.EvaluateAndHandoff();
    ghost var eligible := m.preferredMode == AUTO && exists t :: m.Eligible(t);
    ghost var chosen := m.activeTransport;
    second := m.EvaluateAndHandoff();
    if eligible {
      ghost var t :| m.Best(t) && chosen == m.transports[t];
      ghost var u :| m.Best(u) && m.activeTransport == m.transports[u];
      m.BestUnique(t, u);
    }
  }
}
