// Which boundaries of the text may receive an invisible character, and
// which of them the scan of insert_adaptive_invisible_traps records
// (is_valid_insert_pos, main.py:33-37; the marking loop, main.py:49-59).

module Boundaries {
  import opened Tables
  import opened Arithmetic

  /** is_valid_insert_pos: a boundary is usable exactly when neither
   *  neighbour is a disqualifying character (stated by character class;
   *  IsValidInsertPosLiteral ties it to the literal). */
  predicate IsValidInsertPos(prevChar: char, nextChar: char) {
    !Disqualifying(prevChar) && !Disqualifying(nextChar)
  }

  /** The predicate is false exactly when one neighbour occurs in the
   *  INVALID_POS_CHARS literal, and true otherwise. */
  lemma IsValidInsertPosLiteral(prevChar: char, nextChar: char)
    ensures IsValidInsertPos(prevChar, nextChar)
            <==> !(prevChar in InvalidPosChars || nextChar in InvalidPosChars)
  {
    InvalidPosCharsExactly(prevChar);
    InvalidPosCharsExactly(nextChar);
  }

  /** Because the invalid set is a raw literal, a boundary next to the
   *  letters t, n or r (or a backslash) is refused, while one next to a
   *  real TAB, LF or CR is accepted. */
  lemma RawLiteralBoundaries()
    ensures !IsValidInsertPos('a', 't') && !IsValidInsertPos('n', 'o') && !IsValidInsertPos('r', 'e')
    ensures !IsValidInsertPos('a', '\\') && !IsValidInsertPos('a', ',') && !IsValidInsertPos(' ', 'b')
    ensures IsValidInsertPos('a', '\t') && IsValidInsertPos('\n', 'b') && IsValidInsertPos('\r', 'b')
    ensures IsValidInsertPos('H', 'i')
  {
    assert Disqualifying('t') && Disqualifying('n') && Disqualifying('r');
    assert Disqualifying('\\') && Disqualifying(',') && Disqualifying(' ');
    assert !Disqualifying('a') && !Disqualifying('b') && !Disqualifying('H') && !Disqualifying('i');
    assert !Disqualifying('\t') && !Disqualifying('\n') && !Disqualifying('\r');
  }

  /** Boundary `j` lies between text[j-1] and text[j]. */
  predicate ValidBoundary(text: string, j: nat)
    requires 1 <= j < |text|
  {
    IsValidInsertPos(text[j - 1], text[j])
  }

  /** The number of valid boundaries strictly below `i`. */
  function ValidCount(text: string, i: nat): (c: nat)
    requires i <= |text|
    ensures c < i || c == 0
  {
    if i <= 1 then 0
    else ValidCount(text, i - 1) + (if ValidBoundary(text, i - 1) then 1 else 0)
  }

  /** The state of the marking loop after the boundaries below `i`:
   *  `count` is char_count, `draws` the number of random draws consumed
   *  and `marked` the list insert_positions. */
  datatype ScanState = ScanState(count: nat, draws: nat, marked: seq<nat>)

  /** The marking loop of main.py:53-59, one boundary at a time. The `and`
   *  at main.py:58 short-circuits, so a draw is consumed only when the
   *  counter, already incremented, is a multiple of `interval`;
   *  `coin(k)` is the outcome of the k-th draw. */
  function Scan(text: string, interval: nat, coin: nat -> bool, i: nat): ScanState
    requires interval >= 1 && i <= |text|
  {
    if i <= 1 then ScanState(0, 0, [])
    else
      var s := Scan(text, interval, coin, i - 1);
      if !ValidBoundary(text, i - 1) then s
      else if (s.count + 1) % interval != 0 then ScanState(s.count + 1, s.draws, s.marked)
      else if coin(s.draws) then ScanState(s.count + 1, s.draws + 1, s.marked + [i - 1])
      else ScanState(s.count + 1, s.draws + 1, s.marked)
  }

  /** The positions a whole scan records. */
  function MarkedPositions(text: string, interval: nat, coin: nat -> bool): seq<nat>
    requires interval >= 1
  {
    Scan(text, interval, coin, |text|).marked
  }

  predicate Increasing(ps: seq<nat>) {
    forall a, b :: 0 <= a < b < |ps| ==> ps[a] < ps[b]
  }

  /** Boundary `p` is recorded: it is valid, it is the c-th valid boundary
   *  for a multiple c of `interval`, and the draw made there — the
   *  (c / interval)-th, counting from one — succeeds. */
  predicate Recorded(text: string, interval: nat, coin: nat -> bool, p: nat)
    requires interval >= 1 && 1 <= p < |text|
  {
    ValidBoundary(text, p)
    && ValidCount(text, p + 1) % interval == 0
    && coin((ValidCount(text, p + 1) - 1) / interval)
  }

  /** One more valid boundary moves the quotient on exactly when the new
   *  count is a multiple of the interval. */
  lemma DivStep(c: nat, m: nat)
    requires m >= 1
    ensures (c + 1) / m == c / m + (if (c + 1) % m == 0 then 1 else 0)
  {
    var q, r := c / m, c % m;
    if r + 1 == m {
      DivModUnique(c + 1, m, q + 1, 0);
    } else {
      DivModUnique(c + 1, m, q, r + 1);
    }
  }

  /** What the scan computes: the counter is the number of valid
   *  boundaries seen, exactly one draw is consumed per multiple of the
   *  interval, at most one position is recorded per draw, and the list is
   *  increasing and stays within the boundaries scanned. */
  lemma {:induction false} ScanFacts(text: string, interval: nat, coin: nat -> bool, i: nat)
    requires interval >= 1 && i <= |text|
    ensures Scan(text, interval, coin, i).count == ValidCount(text, i)
    ensures Scan(text, interval, coin, i).draws == ValidCount(text, i) / interval
    ensures |Scan(text, interval, coin, i).marked| <= Scan(text, interval, coin, i).draws
    ensures Increasing(Scan(text, interval, coin, i).marked)
    ensures forall k :: 0 <= k < |Scan(text, interval, coin, i).marked| ==>
              1 <= Scan(text, interval, coin, i).marked[k] < i
  {
    if i > 1 {
      ScanFacts(text, interval, coin, i - 1);
      DivStep(Scan(text, interval, coin, i - 1).count, interval);
    }
  }

  /** A boundary below `i` is in the scan's list exactly when `Recorded`
   *  holds of it. */
  lemma {:induction false} ScanRecordsExactly(text: string, interval: nat, coin: nat -> bool, i: nat)
    requires interval >= 1 && i <= |text|
    ensures forall p :: 1 <= p < i ==>
              (p in Scan(text, interval, coin, i).marked <==> Recorded(text, interval, coin, p))
  {
    if i > 1 {
      var s := Scan(text, interval, coin, i - 1);
      ScanFacts(text, interval, coin, i - 1);
      ScanRecordsExactly(text, interval, coin, i - 1);
      var t := Scan(text, interval, coin, i);
      forall p | 1 <= p < i
        ensures p in t.marked <==> Recorded(text, interval, coin, p)
      {
        if p < i - 1 {
          assert p in t.marked <==> p in s.marked;
        }
      }
    }
  }

  /** The k-th valid boundary, for k below the interval, is never even
   *  offered a draw; in particular the first valid boundary never receives
   *  an insertion when the interval is at least 2. */
  lemma EarlyBoundariesNeverRecorded(text: string, interval: nat, coin: nat -> bool, p: nat)
    requires interval >= 1 && 1 <= p < |text|
    requires ValidCount(text, p + 1) < interval
    ensures p !in MarkedPositions(text, interval, coin)
  {
    ScanRecordsExactly(text, interval, coin, |text|);
    DivModUnique(ValidCount(text, p + 1), interval, 0, ValidCount(text, p + 1));
  }

  /** The counter and the number of draws depend only on the text and the
   *  interval, never on the outcomes of the draws. */
  lemma {:induction false} DrawsIndependentOfOutcomes(text: string, interval: nat, coin1: nat -> bool, coin2: nat -> bool, i: nat)
    requires interval >= 1 && i <= |text|
    ensures Scan(text, interval, coin1, i).count == Scan(text, interval, coin2, i).count
    ensures Scan(text, interval, coin1, i).draws == Scan(text, interval, coin2, i).draws
  {
    if i > 1 {
      DrawsIndependentOfOutcomes(text, interval, coin1, coin2, i - 1);
    }
  }

  /** With no successful draw, nothing is recorded. */
  lemma {:induction false} NoSuccessNoMarks(text: string, interval: nat, coin: nat -> bool, i: nat)
    requires interval >= 1 && i <= |text|
    requires forall k :: !coin(k)
    ensures Scan(text, interval, coin, i).marked == []
  {
    if i > 1 {
      NoSuccessNoMarks(text, interval, coin, i - 1);
    }
  }

  /** A scan records nothing when every draw fails or no boundary is
   *  valid. */
  lemma NothingRecorded(text: string, interval: nat, coin: nat -> bool)
    requires interval >= 1
    requires (forall k :: !coin(k)) || ValidCount(text, |text|) == 0
    ensures MarkedPositions(text, interval, coin) == []
  {
    if forall k :: !coin(k) {
      NoSuccessNoMarks(text, interval, coin, |text|);
    } else {
      ScanFacts(text, interval, coin, |text|);
      DivModUnique(0, interval, 0, 0);
    }
  }
}
