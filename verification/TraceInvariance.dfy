/**
  Rejected and repeated packets leave no trace: deleting them from any input run changes neither the emitted
  frames, nor the missing-keyframe callbacks, nor the final state.
*/
module TraceInvariance {
  import opened Bytes
  import opened Crypto
  import Filter = ReplayFilter
  import opened Reassembler

  /** Datagram k fails admission, or carries the number of an earlier admitted one. */
  ghost predicate Redundant(p: Primitives, mode: Arming, ds: seq<seq<byte>>, k: nat)
    requires k < |ds|
  {
    Admit(p, mode, ds[k]).None? || exists j :: 0 <= j < k && SameNumber(p, mode, ds[j], ds[k])
  }

  ghost predicate SameNumber(p: Primitives, mode: Arming, d: seq<byte>, e: seq<byte>) {
    && Admit(p, mode, d).Some? && Admit(p, mode, e).Some?
    && Admit(p, mode, d).value.header.sequence == Admit(p, mode, e).value.header.sequence
  }

  /** In particular every later copy of a byte-identical packet. */
  lemma CopyIsRedundant(p: Primitives, mode: Arming, ds: seq<seq<byte>>, j: nat, k: nat)
    requires j < k < |ds| && ds[j] == ds[k]
    ensures Redundant(p, mode, ds, k)
  {
    hide Admit;
    if Admit(p, mode, ds[k]).Some? { assert SameNumber(p, mode, ds[j], ds[k]); }
  }

  /** The datagrams whose position is marked. */
  function Kept(ds: seq<seq<byte>>, keep: seq<bool>): seq<seq<byte>>
    requires |ds| == |keep|
  {
    if ds == [] then []
    else (if keep[0] then [ds[0]] else []) + Kept(ds[1..], keep[1..])
  }

  /** A number refused once is refused ever after, and an accepted one is refused from then on. */
  lemma StepRefusesForGood(s: Filter.State, accepted: set<uint32>, n: uint32) returns (now: set<uint32>)
    requires Filter.Remembers(s, accepted)
    ensures Filter.Remembers(Filter.Step(s, n).state, now) && accepted <= now
    ensures !Filter.Fresh(now, n)
    ensures forall m :: !Filter.Fresh(accepted, m) ==> !Filter.Fresh(now, m)
    ensures Filter.Step(s, n).isFresh <==> Filter.Fresh(accepted, n)
  {
    Filter.StepRefines(s, accepted, n);
    now := if Filter.Step(s, n).isFresh then accepted + {n} else accepted;
    forall m: uint32 | !Filter.Fresh(accepted, m) ensures !Filter.Fresh(now, m) {
      if m !in accepted {
        var x :| x in accepted && x >= m + Filter.WINDOW;
        assert x in now;
      }
    }
  }

  /** A packet bearing a number that the filter refuses leaves the receiver as it was. */
  lemma RefusedIsIdle(p: Primitives, mode: Arming, s: State, accepted: set<uint32>, d: seq<byte>)
    requires Filter.Remembers(s.replay, accepted)
    requires Admit(p, mode, d).Some? ==> !Filter.Fresh(accepted, Admit(p, mode, d).value.header.sequence)
    ensures Push(p, mode, s, d) == Outcome(s, REFUSED)
  {
    hide Admit, Filter.Step, Filter.Remembers, Filter.Fresh;
    var a := Admit(p, mode, d);
    if a.Some? { Filter.StepRefines(s.replay, accepted, a.value.header.sequence); }
  }

  /** Whatever happens to the packet next, its number has been committed. */
  lemma ReplayAfter(s: State, a: Admitted)
    ensures Receive(s, a).state.replay == Filter.Step(s.replay, a.header.sequence).state
  {
    hide Entry, Joined, IsSmallest, Newer, Filter.SetBit, Filter.ShiftLeft;
  }

  /** After a push the filter refuses that packet's number, and everything it refused before. */
  lemma PushRefuses(p: Primitives, mode: Arming, s: State, accepted: set<uint32>, d: seq<byte>)
    returns (now: set<uint32>)
    requires Filter.Remembers(s.replay, accepted)
    ensures Filter.Remembers(Push(p, mode, s, d).state.replay, now)
    ensures forall m :: !Filter.Fresh(accepted, m) ==> !Filter.Fresh(now, m)
    ensures Admit(p, mode, d).Some? ==> !Filter.Fresh(now, Admit(p, mode, d).value.header.sequence)
  {
    hide Admit, Receive, Filter.Step, Filter.Remembers, Filter.Fresh;
    now := accepted;
    var a := Admit(p, mode, d);
    if a.Some? {
      ReplayAfter(s, a.value);
      now := StepRefusesForGood(s.replay, accepted, a.value.header.sequence);
    }
  }

  ghost predicate Refused(p: Primitives, mode: Arming, accepted: set<uint32>, d: seq<byte>) {
    Admit(p, mode, d).Some? ==> !Filter.Fresh(accepted, Admit(p, mode, d).value.header.sequence)
  }

  /** What was redundant stays so once the first datagram has been processed. */
  lemma RestStaysRedundant(p: Primitives, mode: Arming, accepted: set<uint32>, now: set<uint32>, ds: seq<seq<byte>>,
                           k: nat)
    requires 0 < k < |ds| && (Refused(p, mode, accepted, ds[k]) || Redundant(p, mode, ds, k))
    requires forall m :: !Filter.Fresh(accepted, m) ==> !Filter.Fresh(now, m)
    requires Refused(p, mode, now, ds[0])
    ensures Refused(p, mode, now, ds[k]) || Redundant(p, mode, ds[1..], k - 1)
  {
    hide Admit, Filter.Fresh;
    if !Refused(p, mode, now, ds[k]) {
      assert Redundant(p, mode, ds, k);
      var j :| 0 <= j < k && SameNumber(p, mode, ds[j], ds[k]);
      assert j != 0;
      assert SameNumber(p, mode, ds[1..][j - 1], ds[1..][k - 1]);
    }
  }

  lemma KeptStep(ds: seq<seq<byte>>, keep: seq<bool>)
    requires |ds| == |keep| && ds != []
    ensures var rest := Kept(ds[1..], keep[1..]);
      if keep[0] then Kept(ds, keep) != [] && Kept(ds, keep)[0] == ds[0] && Kept(ds, keep)[1..] == rest
      else Kept(ds, keep) == rest
  {
    if keep[0] { assert ([ds[0]] + Kept(ds[1..], keep[1..]))[1..] == Kept(ds[1..], keep[1..]); }
  }

  lemma RunIdle(p: Primitives, mode: Arming, s: State, ds: seq<seq<byte>>)
    requires ds != [] && Push(p, mode, s, ds[0]) == Outcome(s, REFUSED)
    ensures Run(p, mode, s, ds) == Run(p, mode, s, ds[1..])
  {
    hide Push;
    var rest := Run(p, mode, s, ds[1..]);
    assert [] + rest.frames == rest.frames && [] + rest.missing == rest.missing;
  }

  lemma RunSame(p: Primitives, mode: Arming, s: State, ds: seq<seq<byte>>, es: seq<seq<byte>>)
    requires ds != [] && es != [] && ds[0] == es[0]
    requires var t := Push(p, mode, s, ds[0]).state; Run(p, mode, t, ds[1..]) == Run(p, mode, t, es[1..])
    ensures Run(p, mode, s, ds) == Run(p, mode, s, es)
  {
    hide Push, Listed;
  }

  lemma RestRedundant(p: Primitives, mode: Arming, accepted: set<uint32>, now: set<uint32>, ds: seq<seq<byte>>,
                      keep: seq<bool>)
    requires |ds| == |keep| > 0
    requires forall k :: 0 <= k < |ds| && !keep[k] ==>
      Refused(p, mode, accepted, ds[k]) || Redundant(p, mode, ds, k)
    requires forall m :: !Filter.Fresh(accepted, m) ==> !Filter.Fresh(now, m)
    requires Refused(p, mode, now, ds[0])
    ensures forall k :: 0 <= k < |ds[1..]| && !keep[1..][k] ==>
      Refused(p, mode, now, ds[1..][k]) || Redundant(p, mode, ds[1..], k)
  {
    hide Refused, Redundant, Filter.Fresh;
    forall k | 0 <= k < |ds[1..]| && !keep[1..][k]
      ensures Refused(p, mode, now, ds[1..][k]) || Redundant(p, mode, ds[1..], k)
    {
      assert keep[1..][k] == keep[k + 1] && ds[1..][k] == ds[k + 1];
      RestStaysRedundant(p, mode, accepted, now, ds, k + 1);
    }
  }

  lemma FirstRefused(p: Primitives, mode: Arming, s: State, accepted: set<uint32>, ds: seq<seq<byte>>)
    requires ds != [] && Filter.Remembers(s.replay, accepted)
    requires Refused(p, mode, accepted, ds[0]) || Redundant(p, mode, ds, 0)
    ensures Push(p, mode, s, ds[0]) == Outcome(s, REFUSED)
  {
    hide Admit, Push, Filter.Remembers, Filter.Fresh, SameNumber;
    RefusedIsIdle(p, mode, s, accepted, ds[0]);
  }

  /** The general form: unmarked datagrams are refused already, or redundant in this run. */
  lemma {:induction false} DeletionFrom(p: Primitives, mode: Arming, s: State, accepted: set<uint32>,
                                        ds: seq<seq<byte>>, keep: seq<bool>)
    requires |ds| == |keep| && Filter.Remembers(s.replay, accepted)
    requires forall k :: 0 <= k < |ds| && !keep[k] ==>
      Refused(p, mode, accepted, ds[k]) || Redundant(p, mode, ds, k)
    ensures Run(p, mode, s, Kept(ds, keep)) == Run(p, mode, s, ds)
    decreases |ds|
  {
    hide Push, Filter.Remembers, Filter.Fresh, Redundant, Run;
    if ds != [] {
      var now := PushRefuses(p, mode, s, accepted, ds[0]);
      RestRedundant(p, mode, accepted, now, ds, keep);
      KeptStep(ds, keep);
      hide Kept, Refused;
      DeletionFrom(p, mode, Push(p, mode, s, ds[0]).state, now, ds[1..], keep[1..]);
      if keep[0] {
        RunSame(p, mode, s, Kept(ds, keep), ds);
      } else {
        FirstRefused(p, mode, s, accepted, ds);
        RunIdle(p, mode, s, ds);
      }
    }
  }

  /** Any subset of the rejected and repeated packets of any run may be deleted. */
  lemma DeletionInvariance(p: Primitives, mode: Arming, ds: seq<seq<byte>>, keep: seq<bool>)
    requires |ds| == |keep|
    requires forall k :: 0 <= k < |ds| && !keep[k] ==> Redundant(p, mode, ds, k)
    ensures Run(p, mode, Reassembler.INITIAL, Kept(ds, keep)) == Run(p, mode, Reassembler.INITIAL, ds)
  {
    DeletionFrom(p, mode, Reassembler.INITIAL, {}, ds, keep);
  }
}
