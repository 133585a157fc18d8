// The 1024-bit sliding replay bitmap refines the set of accepted numbers.
module Replay {
  import opened Bytes
  import opened Words

  const WINDOW: nat := 1024

  datatype Verdict = Accept | TooOld | Replayed

  // The window as a set: every number ever accepted, and the lowest one still judged.
  datatype Window = Window(base: nat, accepted: set<nat>)
  {
    function Judge(s: nat): Verdict {
      if s < base then TooOld else if s in accepted then Replayed else Accept
    }

    function Commit(s: nat): Window {
      if Judge(s) != Accept then this
      else Window(if s >= base + WINDOW then s - (WINDOW - 1) else base, accepted + {s})
    }

    // base is 1023 below the largest accepted number, or 0.
    ghost predicate Anchored() {
      && (forall s | s in accepted :: s < base + WINDOW)
      && (base == 0 || base + (WINDOW - 1) in accepted)
    }
  }

  // Bit p of the 16-word bitmap.
  predicate BitAt(bm: seq<nat>, p: nat)
    requires |bm| == 16 && p < WINDOW
  {
    Bit(bm[p / 64], p % 64)
  }

  ghost predicate WellFormed(bm: seq<nat>) { |bm| == 16 && forall i | 0 <= i < 16 :: bm[i] < U64 }

  // Word i of the bitmap shifted down by `slide` positions.
  function ShiftedWord(bm: seq<nat>, slide: nat, i: nat): nat
    requires |bm| == 16 && i < 16
  {
    var src, bitShift := i + slide / 64, slide % 64;
    if src >= 16 then 0
    else if bitShift > 0 && src + 1 < 16 then Or(Shr(bm[src], bitShift), Shl(bm[src + 1], 64 - bitShift))
    else Shr(bm[src], bitShift)
  }

  lemma {:induction false} BitHigh(w: nat, n: nat, i: nat)
    requires w < Pow2(n) && n <= i
    ensures !Bit(w, i)
    decreases n
  {
    if n == 0 { BitZero(i); } else { BitHigh(w / 2, n - 1, i - 1); }
  }

  // Bit b of the shifted word i is the bit `slide` positions further up, or clear.
  lemma ShiftedBit(bm: seq<nat>, slide: nat, i: nat, b: nat)
    requires WellFormed(bm) && i < 16 && b < 64
    ensures Bit(ShiftedWord(bm, slide, i), b) == (i * 64 + b + slide < WINDOW && BitAt(bm, i * 64 + b + slide))
  {
    hide Bit, Shr, Shl, Or;
    var src, bitShift := i + slide / 64, slide % 64;
    var p := i * 64 + b + slide;
    assert p == src * 64 + (b + bitShift);
    WordIsPow2();
    if src >= 16 {
      BitZero(b);
    } else {
      BitShr(bm[src], bitShift, b);
      if b + bitShift < 64 {
        assert p / 64 == src && p % 64 == b + bitShift;
      } else {
        BitHigh(bm[src], 64, b + bitShift);
        assert p / 64 == src + 1 && p % 64 == b + bitShift - 64;
      }
      if bitShift > 0 && src + 1 < 16 {
        BitOr(Shr(bm[src], bitShift), Shl(bm[src + 1], 64 - bitShift), b);
        BitShl(bm[src + 1], 64 - bitShift, b);
      }
    }
  }

  lemma ShiftedBound(bm: seq<nat>, slide: nat, i: nat)
    requires WellFormed(bm) && i < 16
    ensures ShiftedWord(bm, slide, i) < U64
  {
    var src, bitShift := i + slide / 64, slide % 64;
    WordIsPow2();
    if src < 16 {
      ShrBound(bm[src], bitShift);
      if bitShift > 0 && src + 1 < 16 {
        ShlBound(bm[src + 1], 64 - bitShift);
        OrBound(Shr(bm[src], bitShift), Shl(bm[src + 1], 64 - bitShift), 64);
      }
    }
  }

  // The bitmap records exactly the accepted numbers at base .. base + 1023.
  ghost predicate Represents(bm: seq<nat>, w: Window) {
    WellFormed(bm) && forall p: nat | p < WINDOW :: BitAt(bm, p) <==> w.base + p in w.accepted
  }

  class ReplayWindow {
    var baseSeq: nat
    var bitmap: array<nat>
    ghost var accepted: set<nat>

    ghost predicate Valid()
      reads this, bitmap
    {
      bitmap.Length == 16 && View().Anchored() && Represents(bitmap[..], View())
    }

    ghost function View(): Window
      reads this
    {
      Window(baseSeq, accepted)
    }

    constructor ()
      ensures Valid() && View() == Window(0, {}) && fresh(bitmap)
    {
      baseSeq := 0;
      bitmap := new nat[16](_ => 0);
      accepted := {};
      new;
      forall p: nat | p < WINDOW ensures !BitAt(bitmap[..], p) { BitZero(p % 64); }
    }

    method Check(s: nat) returns (v: Verdict)
      requires Valid()
      ensures v == View().Judge(s)
    {
      if s < baseSeq {
        return TooOld;
      }
      var offset := s - baseSeq;
      if offset < WINDOW {
        assert BitAt(bitmap[..], offset) <==> baseSeq + offset in accepted;
        if Bit(bitmap[offset / 64], offset % 64) {
          return Replayed;
        }
      }
      return Accept;
    }

    // Slide the window up so that s becomes its last slot.
    method Slide(s: nat)
      requires Valid() && s >= baseSeq + WINDOW
      modifies this
      ensures fresh(bitmap) && bitmap.Length == 16
      ensures baseSeq == s - (WINDOW - 1) && accepted == old(accepted)
      ensures Represents(bitmap[..], View())
    {
      var slide := s - baseSeq - (WINDOW - 1);
      if slide >= WINDOW {
        bitmap := new nat[16](_ => 0);
        forall p: nat | p < WINDOW ensures !BitAt(bitmap[..], p) { BitZero(p % 64); }
      } else {
        SlideRepresents(bitmap[..], View(), slide);
        bitmap := ShiftBitmap(bitmap[..], slide);
      }
      baseSeq := baseSeq + slide;
    }

    method Commit(s: nat) returns (v: Verdict)
      requires Valid()
      modifies this, bitmap
      ensures Valid() && (bitmap == old(bitmap) || fresh(bitmap))
      ensures v == old(View()).Judge(s)
      ensures View() == old(View()).Commit(s)
    {
      if s < baseSeq {
        return TooOld;
      }
      if s - baseSeq >= WINDOW {
        Slide(s);
      }
      var bitPos := s - baseSeq;
      assert BitAt(bitmap[..], bitPos) <==> baseSeq + bitPos in accepted;
      if Bit(bitmap[bitPos / 64], bitPos % 64) {
        return Replayed;
      }
      MarkRepresents(bitmap[..], View(), bitPos);
      ghost var bm := bitmap[..];
      bitmap[bitPos / 64] := Or(bitmap[bitPos / 64], Shl(1, bitPos % 64));
      assert bitmap[..] == Mark(bm, bitPos);
      accepted := accepted + {s};
      return Accept;
    }
  }

  ghost function Shifted(bm: seq<nat>, slide: nat): (r: seq<nat>)
    requires |bm| == 16
    ensures |r| == 16
  {
    seq(16, i requires 0 <= i < 16 => ShiftedWord(bm, slide, i))
  }

  // The new_bitmap loop.
  method ShiftBitmap(bm: seq<nat>, slide: nat) returns (next: array<nat>)
    requires |bm| == 16
    ensures fresh(next) && next.Length == 16 && next[..] == Shifted(bm, slide)
  {
    next := new nat[16](_ => 0);
    for i := 0 to 16
      invariant forall j | 0 <= j < 16 :: next[j] == if j < i then ShiftedWord(bm, slide, j) else 0
    {
      var src, bitShift := i + slide / 64, slide % 64;
      if src < 16 {
        next[i] := Shr(bm[src], bitShift);
        if bitShift > 0 && src + 1 < 16 {
          next[i] := Or(next[i], Shl(bm[src + 1], 64 - bitShift));
        }
      }
    }
  }

  lemma SlideRepresents(bm: seq<nat>, w: Window, slide: nat)
    requires w.Anchored() && Represents(bm, w) && slide < WINDOW
    ensures Represents(Shifted(bm, slide), w.(base := w.base + slide))
  {
    var bm' := Shifted(bm, slide);
    forall i | 0 <= i < 16 ensures bm'[i] < U64 { ShiftedBound(bm, slide, i); }
    forall p: nat | p < WINDOW ensures BitAt(bm', p) <==> w.base + slide + p in w.accepted {
      ShiftedBit(bm, slide, p / 64, p % 64);
      assert p / 64 * 64 + p % 64 == p;
    }
  }

  // bitmap[word] |= 1 << bit
  function Mark(bm: seq<nat>, p: nat): (r: seq<nat>)
    requires |bm| == 16 && p < WINDOW
    ensures |r| == 16
  {
    bm[p / 64 := Or(bm[p / 64], Shl(1, p % 64))]
  }

  lemma MarkBit(bm: seq<nat>, p: nat, q: nat)
    requires |bm| == 16 && p < WINDOW && q < WINDOW
    ensures BitAt(Mark(bm, p), q) <==> q == p || BitAt(bm, q)
  {
    if q / 64 == p / 64 {
      BitOr(bm[p / 64], Shl(1, p % 64), q % 64);
      BitShl(1, p % 64, q % 64);
      if q % 64 >= p % 64 { BitOne(q % 64 - p % 64); }
    }
  }

  lemma MarkRepresents(bm: seq<nat>, w: Window, p: nat)
    requires Represents(bm, w) && p < WINDOW
    ensures Represents(Mark(bm, p), w.(accepted := w.accepted + {w.base + p}))
  {
    WordIsPow2();
    ShlBound(1, p % 64);
    OrBound(bm[p / 64], Shl(1, p % 64), 64);
    forall q: nat | q < WINDOW
      ensures BitAt(Mark(bm, p), q) <==> w.base + q in w.accepted + {w.base + p}
    {
      MarkBit(bm, p, q);
    }
  }

  // ---- Whole runs ----

  // The window after a run of commits.
  function After(attempts: seq<nat>): Window {
    if attempts == [] then Window(0, {}) else After(attempts[..|attempts| - 1]).Commit(attempts[|attempts| - 1])
  }

  predicate AcceptedAt(attempts: seq<nat>, i: nat)
    requires i < |attempts|
  {
    After(attempts[..i]).Judge(attempts[i]) == Accept
  }

  lemma {:induction false} AfterAnchored(attempts: seq<nat>)
    ensures After(attempts).Anchored()
  {
    if attempts != [] { AfterAnchored(attempts[..|attempts| - 1]); }
  }

  // The accepted set holds exactly the numbers accepted at some attempt.
  lemma {:induction false} AcceptedSet(attempts: seq<nat>, s: nat)
    ensures s in After(attempts).accepted <==>
      exists i | 0 <= i < |attempts| :: attempts[i] == s && AcceptedAt(attempts, i)
  {
    if attempts != [] {
      var n := |attempts| - 1;
      var front := attempts[..n];
      AcceptedSet(front, s);
      forall i | 0 <= i < n ensures AcceptedAt(attempts, i) == AcceptedAt(front, i) {
        assert attempts[..i] == front[..i];
      }
      if s in After(front).accepted {
        var i :| 0 <= i < n && front[i] == s && AcceptedAt(front, i);
        assert attempts[i] == s && AcceptedAt(attempts, i);
      }
      if attempts[n] == s && AcceptedAt(attempts, n) {
        assert s in After(attempts).accepted;
      }
    }
  }

  // No number is accepted twice in any run.
  lemma NoReplay(attempts: seq<nat>, i: nat, j: nat)
    requires i < j < |attempts| && attempts[i] == attempts[j]
    requires AcceptedAt(attempts, i)
    ensures !AcceptedAt(attempts, j)
  {
    assert attempts[..j][..i] == attempts[..i];
    assert AcceptedAt(attempts[..j], i);
    AcceptedSet(attempts[..j], attempts[j]);
  }

  // An attempt is accepted exactly when it is new and no accepted number is 1024 or more above it.
  lemma AcceptedIff(attempts: seq<nat>, s: nat)
    ensures After(attempts).Judge(s) == Accept <==>
      s !in After(attempts).accepted && forall a | a in After(attempts).accepted :: a < s + WINDOW
  {
    AfterAnchored(attempts);
  }
}
