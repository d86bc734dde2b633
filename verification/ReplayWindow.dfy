/** The sliding replay window of src/session.rs: a high-water mark and a 128-bit mask
    standing in for the set of all counters ever accepted. */
module ReplayWindow {
  import opened Numerics

  datatype Window = Window(vMax: u64, bitmask: u128)

  const EMPTY := Window(0, 0)

  /** One call of `check_and_update` on a live session: the new window and the answer. */
  function Step(w: Window, size: u64, counter: u64): (Window, bool) {
    if counter > w.vMax then
      var shift := counter - w.vMax;
      var mask := if shift >= size then 1 else Or128(Shl128(w.bitmask, shift), 0);
      (Window(counter, mask), true)
    else if counter <= SaturatingSub(w.vMax, size) then
      (w, false)
    else
      var offset := w.vMax - counter;
      if Test128(w.bitmask, offset) then
        (w, false)
      else
        (w.(bitmask := Or128(w.bitmask, offset)), true)
  }

  /** The window after a run of calls. */
  function After(size: u64, calls: seq<u64>): Window {
    if calls == [] then EMPTY
    else Step(After(size, calls[..|calls| - 1]), size, calls[|calls| - 1]).0
  }

  /** Every counter the run accepted. */
  function Accepted(size: u64, calls: seq<u64>): set<u64> {
    if calls == [] then {}
    else
      var before, counter := calls[..|calls| - 1], calls[|calls| - 1];
      Accepted(size, before)
      + if Step(After(size, before), size, counter).1 then {counter} else {}
  }

  // ---------- What the window is for ----------

  /** The rule in terms of the whole history: a counter is new when it is above the
      window's lower edge and was not accepted before. */
  ghost predicate IsNew(vMax: u64, size: u64, seen: set<u64>, counter: u64) {
    counter > SaturatingSub(vMax, size) && counter !in seen
  }

  /** The window stands for the history `seen`. */
  ghost predicate Tracks(w: Window, size: u64, seen: set<u64>) {
    && (forall c <- seen :: 0 < c <= w.vMax)
    && (if seen == {} then w.vMax == 0 else w.vMax in seen)
    && (forall i: nat :: i < size ==> (Bit(w.bitmask, i) <==> i <= w.vMax && w.vMax - i in seen))
  }

  lemma EmptyTracks(size: u64)
    ensures Tracks(EMPTY, size, {})
  {
    forall i: nat | i < size ensures !Bit(0, i) {
      ZeroHasNoBit(i);
    }
  }

  /** One step keeps the correspondence and answers by the history rule. */
  lemma StepTracks(w: Window, size: u64, seen: set<u64>, counter: u64)
    requires size <= 128 && Tracks(w, size, seen)
    ensures var (w', ok) := Step(w, size, counter);
            && (ok <==> IsNew(w.vMax, size, seen, counter))
            && w'.vMax == (if ok then Max(w.vMax, counter) else w.vMax)
            && Tracks(w', size, if ok then seen + {counter} else seen)
  {
    if counter > w.vMax {
      StepAboveTracks(w, size, seen, counter);
    } else if counter > SaturatingSub(w.vMax, size) {
      var offset := w.vMax - counter;
      assert offset < size;
      forall i: nat | i < size
        ensures Bit(Or128(w.bitmask, offset), i) <==> i == offset || Bit(w.bitmask, i)
      {
        SetBitSets(w.bitmask, offset, i);
      }
    }
  }

  /** Moving the mark up moves every remembered bit with it. */
  lemma StepAboveBit(w: Window, size: u64, counter: u64, i: nat)
    requires i < size <= 128 && counter > w.vMax
    ensures var shift := counter - w.vMax;
            Bit(Step(w, size, counter).0.bitmask, i) <==>
            i == 0 || (shift <= i && Bit(w.bitmask, i - shift))
  {
    var shift := counter - w.vMax;
    if shift >= size {
      OneHasBitZero(i);
    } else {
      PushedBit(w.bitmask, shift, i);
    }
  }

  lemma StepAboveTracks(w: Window, size: u64, seen: set<u64>, counter: u64)
    requires size <= 128 && Tracks(w, size, seen) && counter > w.vMax
    ensures Tracks(Step(w, size, counter).0, size, seen + {counter})
  {
    var shift, w' := counter - w.vMax, Step(w, size, counter).0;
    forall i: nat | i < size
      ensures Bit(w'.bitmask, i) <==> i <= counter && counter - i in seen + {counter}
    {
      StepAboveBit(w, size, counter, i);
      if shift <= i {
        assert counter - i == w.vMax - (i - shift);
      }
    }
  }

  lemma {:induction false} RunTracks(size: u64, calls: seq<u64>)
    requires size <= 128
    ensures Tracks(After(size, calls), size, Accepted(size, calls))
  {
    if calls == [] {
      EmptyTracks(size);
    } else {
      var before := calls[..|calls| - 1];
      RunTracks(size, before);
      StepTracks(After(size, before), size, Accepted(size, before), calls[|calls| - 1]);
    }
  }

  // ---------- Windows taken over from another guard ----------

  /** The mark, and the counters whose bits a window of `size` looks at and finds set. */
  predicate Remembers(w: Window, size: u64, c: u64) {
    0 < c <= w.vMax && (c == w.vMax || (SaturatingSub(w.vMax, size) < c && Bit(w.bitmask, w.vMax - c)))
  }

  function Remembered(w: Window, size: u64): set<u64> {
    set c: u64 | c <= w.vMax && Remembers(w, size, c)
  }

  /** What holds of the window of every guard, of whatever window size: no bit stands for a
      counter below 1, and the mark itself has been accepted. */
  ghost predicate Sound(w: Window) {
    && (forall i: nat :: i < 128 && Bit(w.bitmask, i) ==> i < w.vMax)
    && (0 < w.vMax ==> Bit(w.bitmask, 0))
  }

  lemma StepIsSound(w: Window, size: u64, counter: u64)
    requires Sound(w)
    ensures Sound(Step(w, size, counter).0)
  {
    var w' := Step(w, size, counter).0;
    forall i: nat | i < 128 && Bit(w'.bitmask, i)
      ensures i < w'.vMax
    {
      if counter > w.vMax {
        BitAbove(w, size, counter, i);
      } else {
        BitBelow(w, size, counter, i);
      }
    }
    if counter > w.vMax {
      BitAbove(w, size, counter, 0);
    } else {
      BitBelow(w, size, counter, 0);
    }
  }

  /** Every bit after a step above the mark, for any window size. */
  lemma BitAbove(w: Window, size: u64, counter: u64, i: nat)
    requires i < 128 && counter > w.vMax
    ensures var shift := (counter - w.vMax) % 128;
            Bit(Step(w, size, counter).0.bitmask, i) <==>
            i == 0 || (counter - w.vMax < size && shift <= i && Bit(w.bitmask, i - shift))
  {
    if counter - w.vMax >= size {
      OneHasBitZero(i);
    } else {
      var shift := (counter - w.vMax) % 128;
      assert Shl128(w.bitmask, counter - w.vMax) == Shl128(w.bitmask, shift);
      PushedBit(w.bitmask, shift, i);
    }
  }

  /** And after one at or below it. */
  lemma BitBelow(w: Window, size: u64, counter: u64, i: nat)
    requires i < 128 && counter <= w.vMax
    ensures var w' := Step(w, size, counter).0;
            Bit(w'.bitmask, i) ==> Bit(w.bitmask, i) || (w'.vMax == w.vMax && 0 < counter && i <= w.vMax - counter)
    ensures Bit(w.bitmask, i) ==> Bit(Step(w, size, counter).0.bitmask, i)
  {
    if Step(w, size, counter).1 {
      var offset := w.vMax - counter;
      SetBitSets(w.bitmask, offset % 128, i);
      assert offset % 128 <= offset;
    }
  }

  lemma {:induction false} RunIsSound(size: u64, calls: seq<u64>)
    ensures Sound(After(size, calls))
  {
    if calls == [] {
      EmptyIsSound();
    } else {
      RunIsSound(size, calls[..|calls| - 1]);
      StepIsSound(After(size, calls[..|calls| - 1]), size, calls[|calls| - 1]);
    }
  }

  lemma EmptyIsSound()
    ensures Sound(EMPTY)
  {
    forall i: nat | i < 128
      ensures !Bit(0, i)
    {
      ZeroHasNoBit(i);
    }
  }

  /** Any sound window stands for what it remembers. */
  lemma RememberedTracks(w: Window, size: u64)
    requires size <= 128 && Sound(w)
    ensures Tracks(w, size, Remembered(w, size))
  {
    var seen := Remembered(w, size);
    assert 0 < w.vMax ==> Remembers(w, size, w.vMax) && w.vMax in seen;
    forall i: nat | i < size
      ensures Bit(w.bitmask, i) <==> i <= w.vMax && w.vMax - i in seen
    {
      if i <= w.vMax {
        var c: u64 := w.vMax - i;
        assert c in seen <==> Remembers(w, size, c);
      }
    }
  }

  /** For a window that has kept to a history, that is the part of the history a window of at
      most its size looks at. */
  lemma RememberedIsHistory(w: Window, size: u64, seen: set<u64>, narrow: u64)
    requires Tracks(w, size, seen) && 0 < narrow <= size
    ensures Remembered(w, narrow) == set c | c in seen && c > SaturatingSub(w.vMax, narrow)
  {
    forall c: u64
      ensures c in Remembered(w, narrow) <==> c in seen && c > SaturatingSub(w.vMax, narrow)
    {
      assert c in Remembered(w, narrow) <==> Remembers(w, narrow, c);
      if SaturatingSub(w.vMax, narrow) < c <= w.vMax {
        var i: nat := w.vMax - c;
        assert Bit(w.bitmask, i) <==> i <= w.vMax && w.vMax - i in seen;
      }
    }
  }

  /** The answer a correct guard owes to `counter` after the run `calls`. */
  ghost predicate OwedAnswer(size: u64, calls: seq<u64>, counter: u64) {
    var vMax := After(size, calls).vMax;
    counter > vMax || (counter > SaturatingSub(vMax, size) && counter !in Accepted(size, calls))
  }

  ghost predicate AnswersAsOwed(size: u64, calls: seq<u64>, counter: u64) {
    Step(After(size, calls), size, counter).1 <==> OwedAnswer(size, calls, counter)
  }

  /** The window size is the only thing that decides whether the mask can stand in for
      the history: it does on every run exactly when it fits the 128 bits of the mask. */
  lemma WindowRefinesHistory(size: u64)
    ensures (forall calls, counter :: AnswersAsOwed(size, calls, counter)) <==> size <= 128
  {
    if size <= 128 {
      forall calls, counter ensures AnswersAsOwed(size, calls, counter) {
        RunTracks(size, calls);
        StepTracks(After(size, calls), size, Accepted(size, calls), counter);
      }
    } else {
      OversizedWindowFails(size);
    }
  }

  /** With a wider window, counter 2 after counter 130 is refused although it is new:
      offset 128 wraps around to the bit of the high-water mark itself. */
  lemma OversizedWindowFails(size: u64)
    requires size > 128
    ensures !AnswersAsOwed(size, [130], 2)
  {
    assert [130][..0] == [];
    assert After(size, [130]) == Step(EMPTY, size, 130).0;
    assert Accepted(size, [130]) == {130};
    SetBitSets(Shl128(0, 130), 0, 0);
  }

  /** The mark is the largest accepted counter. */
  lemma {:induction false} MarkIsMaximum(size: u64, calls: seq<u64>)
    requires size <= 128
    ensures Accepted(size, calls) == {} ==> After(size, calls).vMax == 0
    ensures Accepted(size, calls) != {} ==> After(size, calls).vMax in Accepted(size, calls)
    ensures forall c <- Accepted(size, calls) :: c <= After(size, calls).vMax
  {
    RunTracks(size, calls);
  }

  /** Call `i` of a run is accepted. */
  predicate Takes(size: u64, calls: seq<u64>, i: nat)
    requires i < |calls|
  {
    Step(After(size, calls[..i]), size, calls[i]).1
  }

  /** No counter is ever accepted twice, and zero never. */
  lemma {:induction false} NeverTwice(size: u64, calls: seq<u64>, i: nat, j: nat)
    requires size <= 128 && i < j < |calls|
    ensures Takes(size, calls, i) ==> calls[i] != 0
    ensures Takes(size, calls, i) && Takes(size, calls, j) ==> calls[i] != calls[j]
  {
    RunTracks(size, calls[..i]);
    StepTracks(After(size, calls[..i]), size, Accepted(size, calls[..i]), calls[i]);
    assert calls[..i + 1][..i] == calls[..i];
    assert Takes(size, calls, i) ==> calls[i] in Accepted(size, calls[..i + 1]);
    AcceptedGrows(size, calls, i + 1, j);
    RunTracks(size, calls[..j]);
    StepTracks(After(size, calls[..j]), size, Accepted(size, calls[..j]), calls[j]);
  }

  lemma {:induction false} AcceptedGrows(size: u64, calls: seq<u64>, i: nat, j: nat)
    requires i <= j <= |calls|
    ensures Accepted(size, calls[..i]) <= Accepted(size, calls[..j])
  {
    if i == j {
    } else {
      AcceptedGrows(size, calls, i, j - 1);
      assert calls[..j][..j - 1] == calls[..j - 1];
    }
  }
}
