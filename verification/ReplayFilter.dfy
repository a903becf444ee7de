/**
  The 64-packet replay window kept as one 64-bit word, and its refinement of the window of
  section 3.4.3 of RFC 4303: a number is accepted iff it is new and not 64 or more behind the largest.
*/
module ReplayFilter {
  import opened Bytes

  const WINDOW: nat := 64
  const WORD: nat := 0x1_0000_0000_0000_0000

  type word = x: int | 0 <= x < WORD

  // ---- 64-bit word arithmetic ----

  function Pow2(k: nat): (p: nat)
    ensures p > 0
  {
    if k == 0 then 1 else 2 * Pow2(k - 1)
  }

  /** Bit i of a word. */
  predicate Bit(w: nat, i: nat) {
    if i == 0 then w % 2 == 1 else Bit(w / 2, i - 1)
  }

  /** `w << k` in 64 bits: the bits shifted out are lost. */
  function ShiftLeft(w: word, k: nat): word
    decreases k
  {
    if k == 0 then w else ShiftLeft(2 * w % WORD, k - 1)
  }

  /** `w | (1 << i)`. */
  function SetBit(w: word, i: nat): word
    requires i < WINDOW
  {
    if Bit(w, i) then w
    else
      Pow2Word();
      AddBit(w, i, WINDOW);
      w + Pow2(i)
  }

  lemma Pow2Word()
    ensures Pow2(64) == WORD
  {
    hide Pow2;
    Pow2Nibble();
    Pow2Sum(4, 4);
    Pow2Sum(8, 8);
    Pow2Sum(16, 16);
    Pow2Sum(32, 32);
  }

  lemma Pow2Nibble()
    ensures Pow2(4) == 16
  {
    assert Pow2(2) == 4;
  }

  lemma {:induction false} Pow2Sum(a: nat, b: nat)
    ensures Pow2(a + b) == Pow2(a) * Pow2(b)
  {
    if a != 0 { Pow2Sum(a - 1, b); }
  }

  lemma AddEven(w: nat, m: nat)
    ensures (w + 2 * m) / 2 == w / 2 + m && (w + 2 * m) % 2 == w % 2
  {
  }

  lemma Halved(w: nat, q: nat)
    requires w < 2 * q
    ensures w / 2 < q
    ensures w % 2 == 0 ==> w + 1 < 2 * q
    ensures forall m: nat :: w / 2 + m < q ==> w + 2 * m < 2 * q
  {
  }

  lemma Pow2Step(k: nat)
    ensures Pow2(0) == 1 && (k > 0 ==> Pow2(k) == 2 * Pow2(k - 1))
  {
  }

  lemma BitStep(w: nat, i: nat)
    ensures if i == 0 then Bit(w, i) <==> w % 2 == 1 else Bit(w, i) <==> Bit(w / 2, i - 1)
  {
  }

  lemma {:induction false} AddBitFits(w: nat, i: nat, width: nat)
    requires i < width && w < Pow2(width) && !Bit(w, i)
    ensures w + Pow2(i) < Pow2(width)
  {
    hide Bit, Pow2;
    Pow2Step(width);
    Pow2Step(i);
    BitStep(w, i);
    Halved(w, Pow2(width - 1));
    if i > 0 {
      AddBitFits(w / 2, i - 1, width - 1);
    }
  }

  lemma {:induction false} AddBitAt(w: nat, i: nat, j: nat)
    requires !Bit(w, i)
    ensures Bit(w + Pow2(i), j) <==> j == i || Bit(w, j)
  {
    hide Bit, Pow2;
    Pow2Step(i);
    BitStep(w, i);
    BitStep(w, j);
    BitStep(w + Pow2(i), j);
    if i == 0 {
      assert (w + 1) / 2 == w / 2;
    } else {
      AddEven(w, Pow2(i - 1));
      if j > 0 { AddBitAt(w / 2, i - 1, j - 1); }
    }
  }

  /** Adding a missing bit stays in the word and changes only that bit. */
  lemma AddBit(w: nat, i: nat, width: nat)
    requires i < width && w < Pow2(width) && !Bit(w, i)
    ensures w + Pow2(i) < Pow2(width)
    ensures forall j: nat :: Bit(w + Pow2(i), j) <==> j == i || Bit(w, j)
  {
    hide Bit, Pow2;
    AddBitFits(w, i, width);
    forall j: nat ensures Bit(w + Pow2(i), j) <==> j == i || Bit(w, j) {
      AddBitAt(w, i, j);
    }
  }

  lemma SetBitBits(w: word, i: nat)
    requires i < WINDOW
    ensures forall j: nat :: Bit(SetBit(w, i), j) <==> j == i || Bit(w, j)
  {
    if !Bit(w, i) {
      Pow2Word();
      AddBit(w, i, WINDOW);
    }
  }

  /** Multiples of 2^width do not touch the low bits. */
  lemma {:induction false} LowBits(q: nat, width: nat, r: nat, i: nat)
    requires i < width
    ensures Bit(q * Pow2(width) + r, i) <==> Bit(r, i)
  {
    var m := Pow2(width - 1);
    assert q * Pow2(width) == 2 * (q * m);
    if i != 0 {
      assert (q * Pow2(width) + r) / 2 == q * m + r / 2;
      LowBits(q, width - 1, r / 2, i - 1);
    }
  }

  lemma {:induction false} ShiftLeftBits(w: word, k: nat, i: nat)
    requires i < WINDOW
    ensures Bit(ShiftLeft(w, k), i) <==> i >= k && Bit(w, i - k)
    decreases k
  {
    if k != 0 {
      ShiftLeftBits(2 * w % WORD, k - 1, i);
      Pow2Word();
      if i >= k - 1 {
        LowBits(2 * w / WORD, WINDOW, 2 * w % WORD, i - (k - 1));
      }
    }
  }

  // ---- The filter ----

  datatype State = State(seenAny: bool, highest: uint32, bitmap: word)

  const INITIAL: State := State(false, 0, 0)

  datatype Verdict = Verdict(isFresh: bool, state: State)

  function Step(s: State, sequence: uint32): Verdict {
    if !s.seenAny then
      Verdict(true, State(true, sequence, 1))
    else if sequence > s.highest then
      var advance := sequence - s.highest;
      var word := if advance >= WINDOW then 1 else SetBit(ShiftLeft(s.bitmap, advance), 0);
      Verdict(true, State(true, sequence, word))
    else
      var behind := s.highest - sequence;
      if behind >= WINDOW || Bit(s.bitmap, behind) then Verdict(false, s)
      else Verdict(true, s.(bitmap := SetBit(s.bitmap, behind)))
  }

  /** The state remembers exactly the numbers of `accepted` that are less than 64 behind the largest. */
  ghost predicate Remembers(s: State, accepted: set<uint32>) {
    && (s.seenAny <==> accepted != {})
    && (s.seenAny ==>
          && s.highest in accepted
          && (forall n :: n in accepted ==> n <= s.highest)
          && (forall i: nat :: i < WINDOW ==> (Bit(s.bitmap, i) <==> s.highest - i in accepted)))
  }

  /** RFC 4303's rule on the set of numbers accepted so far. */
  ghost predicate Fresh(accepted: set<uint32>, sequence: uint32) {
    sequence !in accepted && forall n :: n in accepted ==> n < sequence + 64
  }

  lemma BitsOfOne()
    ensures forall i: nat :: Bit(1, i) <==> i == 0
  {
    forall i: nat ensures Bit(1, i) <==> i == 0 { BitOfZero(if i == 0 then 0 else i - 1); }
  }

  lemma BitOfZero(i: nat)
    ensures !Bit(0, i)
  {
  }

  /** One call decides by the set rule and remembers the number iff it accepted it. */
  lemma StepRefines(s: State, accepted: set<uint32>, sequence: uint32)
    requires Remembers(s, accepted)
    ensures var v := Step(s, sequence);
      && (v.isFresh <==> Fresh(accepted, sequence))
      && Remembers(v.state, if v.isFresh then accepted + {sequence} else accepted)
  {
    BitsOfOne();
    var v := Step(s, sequence);
    if s.seenAny && sequence > s.highest {
      var advance := sequence - s.highest;
      var now := accepted + {sequence};
      if advance < WINDOW {
        SetBitBits(ShiftLeft(s.bitmap, advance), 0);
        forall i: nat | i < WINDOW
          ensures Bit(v.state.bitmap, i) <==> sequence - i in now
        {
          ShiftLeftBits(s.bitmap, advance, i);
          if i >= advance { assert s.highest - (i - advance) == sequence - i; }
        }
      }
      assert Remembers(v.state, now);
    } else if s.seenAny {
      var behind := s.highest - sequence;
      if behind < WINDOW {
        assert Bit(s.bitmap, behind) <==> s.highest - behind in accepted;
        SetBitBits(s.bitmap, behind);
      }
    }
  }

  // ---- Runs of calls ----

  datatype Calls = Calls(verdicts: seq<bool>, state: State)

  function Run(s: State, sequences: seq<uint32>): (r: Calls)
    ensures |r.verdicts| == |sequences|
  {
    if sequences == [] then Calls([], s)
    else
      var before := Run(s, sequences[..|sequences| - 1]);
      var v := Step(before.state, sequences[|sequences| - 1]);
      Calls(before.verdicts + [v.isFresh], v.state)
  }

  /** The numbers accepted by a run of calls. */
  ghost function Accepted(sequences: seq<uint32>, verdicts: seq<bool>): set<uint32>
    requires |sequences| == |verdicts|
  {
    if sequences == [] then {}
    else
      var n := |sequences| - 1;
      Accepted(sequences[..n], verdicts[..n]) + if verdicts[n] then {sequences[n]} else {}
  }

  lemma {:induction false} AcceptedMembers(sequences: seq<uint32>, verdicts: seq<bool>, i: nat)
    requires i < |sequences| == |verdicts| && verdicts[i]
    ensures sequences[i] in Accepted(sequences, verdicts)
  {
    var n := |sequences| - 1;
    if i < n { AcceptedMembers(sequences[..n], verdicts[..n], i); }
  }

  lemma {:induction false} RunRemembers(sequences: seq<uint32>)
    ensures var r := Run(INITIAL, sequences); Remembers(r.state, Accepted(sequences, r.verdicts))
  {
    if sequences != [] {
      var n := |sequences| - 1;
      var before := Run(INITIAL, sequences[..n]);
      RunRemembers(sequences[..n]);
      StepRefines(before.state, Accepted(sequences[..n], before.verdicts), sequences[n]);
      assert Run(INITIAL, sequences).verdicts[..n] == before.verdicts;
    }
  }

  lemma {:induction false} RunPrefix(s: State, sequences: seq<uint32>, k: nat)
    requires k <= |sequences|
    ensures Run(s, sequences).verdicts[..k] == Run(s, sequences[..k]).verdicts
  {
    if k < |sequences| {
      var n := |sequences| - 1;
      RunPrefix(s, sequences[..n], k);
      assert sequences[..n][..k] == sequences[..k];
    } else {
      assert sequences[..k] == sequences;
    }
  }

  /** Every call of every run from a new filter decides by RFC 4303's rule on what it accepted before. */
  lemma RunDecidesBySet(sequences: seq<uint32>, k: nat)
    requires k < |sequences|
    ensures var v := Run(INITIAL, sequences).verdicts;
            v[k] <==> Fresh(Accepted(sequences[..k], v[..k]), sequences[k])
  {
    var upTo := sequences[..k + 1];
    RunPrefix(INITIAL, sequences, k);
    RunPrefix(INITIAL, sequences, k + 1);
    assert upTo[..k] == sequences[..k];
    RunRemembers(sequences[..k]);
    var before := Run(INITIAL, sequences[..k]);
    StepRefines(before.state, Accepted(sequences[..k], before.verdicts), sequences[k]);
    assert Run(INITIAL, sequences).verdicts[k] == Run(INITIAL, sequences).verdicts[..k + 1][k];
  }

  /** Hence no number is ever accepted twice. */
  lemma NeverAcceptedTwice(sequences: seq<uint32>, i: nat, j: nat)
    requires i < j < |sequences|
    requires Run(INITIAL, sequences).verdicts[i] && Run(INITIAL, sequences).verdicts[j]
    ensures sequences[i] != sequences[j]
  {
    var v := Run(INITIAL, sequences).verdicts;
    RunDecidesBySet(sequences, j);
    AcceptedMembers(sequences[..j], v[..j], i);
  }

  /** The mutable filter. */
  class ReplayFilter {
    var highest: uint32
    var seenAny: bool
    var bitmap: word

    constructor ()
      ensures Value() == INITIAL
    {
      highest, seenAny, bitmap := 0, false, 0;
    }

    function Value(): State
      reads this
    {
      State(seenAny, highest, bitmap)
    }

    /** Assignment of a default-constructed filter. */
    method Clear()
      modifies this
      ensures Value() == INITIAL
    {
      highest, seenAny, bitmap := 0, false, 0;
    }

    method Accept(sequence: uint32) returns (isFresh: bool)
      modifies this
      ensures isFresh == Step(old(Value()), sequence).isFresh
      ensures Value() == Step(old(Value()), sequence).state
      ensures forall accepted :: old(Remembers(Value(), accepted)) ==>
                && (isFresh <==> Fresh(accepted, sequence))
                && Remembers(Value(), if isFresh then accepted + {sequence} else accepted)
    {
      ghost var was := Value();
      forall accepted | Remembers(was, accepted)
        ensures var v := Step(was, sequence);
          && (v.isFresh <==> Fresh(accepted, sequence))
          && Remembers(v.state, if v.isFresh then accepted + {sequence} else accepted)
      {
        StepRefines(was, accepted, sequence);
      }
      if !seenAny {
        seenAny := true;
        highest := sequence;
        bitmap := 1;
        return true;
      }
      if sequence > highest {
        var advance := sequence - highest;
        if advance >= WINDOW {
          bitmap := 1;
        } else {
          bitmap := ShiftLeft(bitmap, advance);
          bitmap := SetBit(bitmap, 0);
        }
        highest := sequence;
        return true;
      }
      var behind := highest - sequence;
      if behind >= WINDOW {
        return false;
      }
      if Bit(bitmap, behind) {
        return false;
      }
      bitmap := SetBit(bitmap, behind);
      isFresh := true;
    }
  }
}
