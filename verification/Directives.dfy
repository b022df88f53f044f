/**
 The directives of a procedure script, as positions in its text: how many there are, which ones touch, how many close
 the text one behind the other, and what follows them. Nothing here looks at how the script is split.
 */
module Directives {
  import opened StringUtils

  const DIRECTIVE := "#then_execute"

  predicate At(s: string, k: nat) {
    MatchesAt(s, DIRECTIVE, k)
  }

  /** Two directives do not overlap, because `#` only starts one. */
  lemma {:induction false} NoOverlap(s: string, a: nat, b: nat)
    requires At(s, a) && At(s, b) && a < b
    ensures b >= a + 13
  {
    if b < a + 13 {
      assert s[a..a + 13][b - a] == s[b] == s[b..b + 13][0];
      HashComesFirst(b - a);
    }
  }

  lemma {:induction false} HashComesFirst(k: nat)
    requires 0 < k < 13
    ensures DIRECTIVE[k] != DIRECTIVE[0]
  {
  }

  /** The first directive from position prev on is at i. */
  ghost predicate FirstAt(s: string, prev: nat, i: nat) {
    prev <= i && At(s, i) && forall k: nat :: prev <= k < i ==> !At(s, k)
  }

  ghost predicate Without(s: string, prev: nat) {
    forall k: nat :: prev <= k ==> !At(s, k)
  }

  lemma {:induction false} SliceOfSlice(s: string, from: nat, to: nat, k: nat, n: nat)
    requires from <= to <= |s| && k + n <= to - from
    ensures s[from..to][k..k + n] == s[from + k..from + k + n]
  {
    var a, b := s[from..to][k..k + n], s[from + k..from + k + n];
    assert |a| == |b| == n;
    assert forall j :: 0 <= j < n ==> a[j] == s[from..to][k + j] == s[from + k + j] == b[j];
  }

  /** A directive in a piece of the text is one of the text. */
  lemma {:induction false} AtInPiece(s: string, from: nat, to: nat, k: nat)
    requires from <= to <= |s|
    ensures At(s[from..to], k) ==> from + k < to && At(s, from + k)
  {
    if At(s[from..to], k) {
      assert |DIRECTIVE| == 13;
      SliceOfSlice(s, from, to, k, 13);
      assert s[from + k..from + k + 13] == DIRECTIVE;
    }
  }

  /** Behind the first directive, the next one starts where that one ends, or later. */
  lemma {:induction false} BehindFirst(s: string, prev: nat, i: nat, k: nat)
    requires FirstAt(s, prev, i) && prev <= k && At(s, k)
    ensures k == i || k >= i + 13
  {
    if k > i {
      NoOverlap(s, i, k);
    }
  }

  // ---------------------------------------------------------------- counting

  /** The number of directives that start at position prev or later. */
  function CountFrom(s: string, prev: nat): nat
    decreases |s| - prev
  {
    if prev >= |s| then 0 else (if At(s, prev) then 1 else 0) + CountFrom(s, prev + 1)
  }

  function Count(s: string): nat {
    CountFrom(s, 0)
  }

  lemma {:induction false} CountSkips(s: string, from: nat, to: nat)
    requires from <= to && forall k: nat :: from <= k < to ==> !At(s, k)
    ensures CountFrom(s, from) == CountFrom(s, to)
    decreases (to as int) - from
  {
    if from < to {
      CountSkips(s, from + 1, to);
    }
  }

  lemma {:induction false} CountOfNone(s: string, prev: nat)
    requires Without(s, prev)
    ensures CountFrom(s, prev) == 0
  {
    if prev < |s| {
      CountSkips(s, prev, |s|);
    }
  }

  /** One is at i, perhaps one touches it, and the others start at i + 14 or later. */
  lemma {:induction false} CountStep(s: string, prev: nat, i: nat)
    requires FirstAt(s, prev, i)
    ensures CountFrom(s, prev) == 1 + (if At(s, i + 13) then 1 else 0) + CountFrom(s, i + 14)
  {
    CountSkips(s, prev, i);
    forall k: nat | i + 1 <= k < i + 13 ensures !At(s, k) {
      if At(s, k) { BehindFirst(s, prev, i, k); }
    }
    CountSkips(s, i + 1, i + 13);
  }

  // ---------------------------------------------------------------- touching

  /** No directive stands right behind another. */
  ghost predicate NoneTouch(s: string, prev: nat) {
    forall k: nat :: prev <= k && At(s, k) ==> !At(s, k + 13)
  }

  lemma {:induction false} NoneTouchStep(s: string, prev: nat, i: nat)
    requires FirstAt(s, prev, i)
    ensures NoneTouch(s, prev) <==> !At(s, i + 13) && NoneTouch(s, i + 14)
  {
    if !At(s, i + 13) && NoneTouch(s, i + 14) {
      forall k: nat | prev <= k && At(s, k) ensures !At(s, k + 13) {
        BehindFirst(s, prev, i, k);
      }
    }
  }

  predicate NewlineBehind(s: string, k: nat) {
    k + 13 < |s| && s[k + 13] == '\n'
  }

  /** Every directive is followed by a newline. */
  ghost predicate NewlineBehindEach(s: string, prev: nat) {
    forall k: nat :: prev <= k && At(s, k) ==> NewlineBehind(s, k)
  }

  lemma {:induction false} NewlineStep(s: string, prev: nat, i: nat)
    requires FirstAt(s, prev, i)
    ensures NewlineBehindEach(s, prev) <==> NewlineBehind(s, i) && NewlineBehindEach(s, i + 14)
  {
    if NewlineBehind(s, i) && NewlineBehindEach(s, i + 14) {
      forall k: nat | prev <= k && At(s, k) ensures NewlineBehind(s, k) {
        BehindFirst(s, prev, i, k);
        if k == i + 13 {
          NewlineIsNoDirective(s, i);
        }
      }
    }
  }

  lemma {:induction false} StartsWithHash(s: string, k: nat)
    ensures At(s, k) ==> k < |s| && s[k] == '#'
  {
    if At(s, k) {
      assert s[k..k + 13][0] == s[k];
    }
  }

  lemma {:induction false} NewlineIsNoDirective(s: string, k: nat)
    requires NewlineBehind(s, k)
    ensures !At(s, k + 13)
  {
    StartsWithHash(s, k + 13);
  }

  lemma {:induction false} NewlinesSeparate(s: string, prev: nat)
    requires NewlineBehindEach(s, prev)
    ensures NoneTouch(s, prev)
  {
    forall k: nat | prev <= k && At(s, k) ensures !At(s, k + 13) {
      NewlineIsNoDirective(s, k);
    }
  }

  // ------------------------------------------------------------ at the end

  /** How many directives stand one right behind the other in front of position end, not going back beyond prev. */
  function RunBefore(s: string, end: nat, prev: nat): nat {
    if prev + 13 <= end && At(s, end - 13) then 1 + RunBefore(s, end - 13, prev) else 0
  }

  /** How many directives close the text, each right behind the one before. */
  function ClosingRun(s: string): nat {
    RunBefore(s, |s|, 0)
  }

  /** With newlines behind them there are none at the end. */
  lemma {:induction false} NewlinesDoNotClose(s: string)
    requires NewlineBehindEach(s, 0)
    ensures ClosingRun(s) == 0
  {
  }

  lemma {:induction false} NoneBeforeFirst(s: string, prev: nat, i: nat)
    requires FirstAt(s, prev, i)
    ensures RunBefore(s, i, prev) == 0
  {
  }

  /** Leaving out all up to the first directive and one character more keeps the closing run, or shortens it by two. */
  lemma {:induction false} RunStep(s: string, end: nat, prev: nat, i: nat)
    requires FirstAt(s, prev, i) && i + 14 <= end
    ensures RunBefore(s, end, prev) % 2 == RunBefore(s, end, i + 14) % 2
  {
    if end >= i + 27 {
      if At(s, end - 13) {
        RunStep(s, end - 13, prev, i);
      }
    } else if At(s, end - 13) {
      BehindFirst(s, prev, i, end - 13);
      NoneBeforeFirst(s, prev, i);
      assert RunBefore(s, i + 13, prev) == 1;
    }
  }
}
