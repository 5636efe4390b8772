// insert_adaptive_invisible_traps (main.py:39-67) and the way the front
// end calls it (main.py:174-189). Randomness is passed in: `coin(k)` is
// the outcome of the k-th `random.random() < prob` test and `pick(k)` the
// index handed to the k-th `random.choice`.

module Engine {
  import opened Tables
  import opened PyStrings
  import opened Selection
  import opened Boundaries
  import opened Weaving

  /** Some pool that `pools` names holds `c`. */
  predicate FromNamedPool(pools: seq<PoolName>, c: char)
    requires PoolNamesOk(pools)
  {
    exists k :: 0 <= k < |pools| && c in Pools[pools[k]]
  }

  /** The characters inserted into the body, in position order: the one
   *  for the j-th of n positions comes from draw n - 1 - j (InsertInReverse
   *  proves that its loop consumes the draws in this order). */
  function BodyChars(pools: seq<PoolName>, pick: nat -> nat, n: nat): (cs: seq<char>)
    requires PoolNamesOk(pools) && |pools| > 0
    ensures |cs| == n
    ensures forall j :: 0 <= j < n ==> FromNamedPool(pools, cs[j])
  {
    var cs := seq(n, j requires 0 <= j < n => Choose(pools, pick(n - 1 - j)));
    assert forall j :: 0 <= j < n ==> cs[j] == Choose(pools, pick(n - 1 - j));
    cs
  }

  /** The two-character end mark, drawn after the body insertions. */
  function EndMark(pools: seq<PoolName>, pick: nat -> nat, n: nat): (m: string)
    requires PoolNamesOk(pools) && |pools| > 0
    ensures |m| == 2 && FromNamedPool(pools, m[0]) && FromNamedPool(pools, m[1])
  {
    [Choose(pools, pick(n)), Choose(pools, pick(n + 1))]
  }

  /** What insert_adaptive_invisible_traps returns: the empty string for
   *  blank text (by BlankIff, text that is empty or all whitespace);
   *  otherwise the text woven with one pool character before
   *  each recorded boundary, then a space and the end mark. */
  function Traps(text: string, cfg: Level, coin: nat -> bool, pick: nat -> nat): string
    requires LevelOk(cfg)
  {
    if AllSpace(text) then ""
    else
      var ps := MarkedPositions(text, cfg.interval, coin);
      ScanFacts(text, cfg.interval, coin, |text|);
      Weave(text, ps, BodyChars(cfg.pools, pick, |ps|)) + " " + EndMark(cfg.pools, pick, |ps|)
  }

  /** The engine itself: scan the boundaries, recording some, then insert
   *  from the last recorded position down, then append the end mark. */
  method InsertAdaptiveInvisibleTraps(text: string, cfg: Level, coin: nat -> bool, pick: nat -> nat)
    returns (out: string)
    requires LevelOk(cfg)
    ensures out == Traps(text, cfg, coin, pick)
  {
    BlankIff(text);
    if Blank(text) {
      return "";
    }
    var interval := cfg.interval;
    var usedPools := cfg.pools;
    var insertPositions := MarkInsertablePositions(text, interval, coin);
    var result, draws := InsertInReverse(text, insertPositions, usedPools, pick);
    var m0 := GetRandomInvisibleChar(usedPools, pick(draws));
    var m1 := GetRandomInvisibleChar(usedPools, pick(draws + 1));
    assert [m0, m1] == EndMark(usedPools, pick, |insertPositions|);
    out := result + " " + [m0, m1];
  }

  /** The marking loop: count the valid boundaries and, at every
   *  interval-th one, consume a draw and record the boundary if it
   *  succeeds. */
  method MarkInsertablePositions(text: string, interval: nat, coin: nat -> bool)
    returns (insertPositions: seq<nat>)
    requires interval >= 1 && text != []
    ensures insertPositions == MarkedPositions(text, interval, coin)
    ensures Increasing(insertPositions)
    ensures forall k :: 0 <= k < |insertPositions| ==> 1 <= insertPositions[k] < |text|
  {
    var charCount := 0;
    var draws := 0;
    insertPositions := [];
    var i := 1;
    while i < |text|
      invariant 1 <= i <= |text|
      invariant ScanState(charCount, draws, insertPositions) == Scan(text, interval, coin, i)
    {
      if IsValidInsertPos(text[i - 1], text[i]) {
        charCount := charCount + 1;
        if charCount % interval == 0 {
          var hit := coin(draws);
          draws := draws + 1;
          if hit {
            insertPositions := insertPositions + [i];
          }
        }
      }
      i := i + 1;
    }
    ScanFacts(text, interval, coin, |text|);
  }

  /** The insertion loop: one pool character before each recorded
   *  position, taking the positions from the highest down so that no
   *  position still to be applied has moved. The draws are consumed in
   *  loop order, so the highest position gets the first one; `draws` is
   *  how many were consumed. */
  method InsertInReverse(text: string, insertPositions: seq<nat>, usedPools: seq<PoolName>, pick: nat -> nat)
    returns (result: string, draws: nat)
    requires PoolNamesOk(usedPools) && |usedPools| > 0
    requires Increasing(insertPositions) && InRange(insertPositions, 0, |text|)
    ensures result == Weave(text, insertPositions, BodyChars(usedPools, pick, |insertPositions|))
    ensures draws == |insertPositions|
  {
    result := text;
    draws := 0;
    var n := |insertPositions|;
    ghost var cs := BodyChars(usedPools, pick, n);
    var j := n;
    while j > 0
      invariant 0 <= j <= n && draws == n - j
      invariant Increasing(insertPositions[j..]) && InRange(insertPositions[j..], 0, |text|)
      invariant result == Weave(text, insertPositions[j..], cs[j..])
    {
      j := j - 1;
      var pos := insertPositions[j];
      var c := GetRandomInvisibleChar(usedPools, pick(draws));
      draws := draws + 1;
      InsertBelowWoven(text, insertPositions, cs, j);
      result := Insert(result, pos, c);
    }
    assert insertPositions[0..] == insertPositions && cs[0..] == cs;
  }

  /** Non-blank text: the result is the woven body, a space and the mark,
   *  the recorded positions being increasing boundaries of the text. */
  lemma TrapsUnfold(text: string, cfg: Level, coin: nat -> bool, pick: nat -> nat)
    requires LevelOk(cfg) && !AllSpace(text)
    ensures var ps := MarkedPositions(text, cfg.interval, coin);
      Increasing(ps) && InRange(ps, 0, |text|)
      && Traps(text, cfg, coin, pick)
         == Weave(text, ps, BodyChars(cfg.pools, pick, |ps|)) + " " + EndMark(cfg.pools, pick, |ps|)
  {
    ScanFacts(text, cfg.interval, coin, |text|);
  }

  /** The result is empty exactly when the text is empty or all
   *  whitespace: non-blank text always gets the end mark. */
  lemma TrapsEmptyIff(text: string, cfg: Level, coin: nat -> bool, pick: nat -> nat)
    requires LevelOk(cfg)
    ensures Traps(text, cfg, coin, pick) == "" <==> Blank(text)
  {
    BlankIff(text);
  }

  /** For non-blank text the result is the woven body, a space and two
   *  pool characters, one character longer than the text per recorded
   *  boundary plus three. */
  lemma TrapsShape(text: string, cfg: Level, coin: nat -> bool, pick: nat -> nat)
    requires LevelOk(cfg) && !AllSpace(text)
    ensures var r := Traps(text, cfg, coin, pick);
      var n := |MarkedPositions(text, cfg.interval, coin)|;
      |r| == |text| + n + 3 && r[|r| - 3] == ' '
      && FromNamedPool(cfg.pools, r[|r| - 2]) && FromNamedPool(cfg.pools, r[|r| - 1])
      && r[|r| - 2] in PoolChars && r[|r| - 1] in PoolChars
  {
    var ps := MarkedPositions(text, cfg.interval, coin);
    ScanFacts(text, cfg.interval, coin, |text|);
    WeaveLength(text, ps, BodyChars(cfg.pools, pick, |ps|), 0);
    ChooseInPoolChars(cfg.pools, pick(|ps|));
    ChooseInPoolChars(cfg.pools, pick(|ps| + 1));
  }

  /** Between |text| + 3 and |text| + (valid boundaries / interval) + 3
   *  characters for non-blank text. */
  lemma TrapsLengthBounds(text: string, cfg: Level, coin: nat -> bool, pick: nat -> nat)
    requires LevelOk(cfg) && !AllSpace(text)
    ensures |text| + 3 <= |Traps(text, cfg, coin, pick)|
            <= |text| + ValidCount(text, |text|) / cfg.interval + 3
  {
    TrapsShape(text, cfg, coin, pick);
    ScanFacts(text, cfg.interval, coin, |text|);
  }

  /** Content preservation: dropping the body insertions from everything
   *  before the final space and end mark gives back the text. */
  lemma TrapsPreservesText(text: string, cfg: Level, coin: nat -> bool, pick: nat -> nat)
    requires LevelOk(cfg) && !AllSpace(text)
    ensures var r := Traps(text, cfg, coin, pick);
      var ps := MarkedPositions(text, cfg.interval, coin);
      |r| == |text| + |ps| + 3 && Increasing(ps) && Unweave(r[..|r| - 3], ps) == text
  {
    var ps := MarkedPositions(text, cfg.interval, coin);
    var cs := BodyChars(cfg.pools, pick, |ps|);
    TrapsUnfold(text, cfg, coin, pick);
    var body := Weave(text, ps, cs);
    var r := body + " " + EndMark(cfg.pools, pick, |ps|);
    WeaveLength(text, ps, cs, 0);
    assert r[..|r| - 3] == body;
    UnweaveWeave(text, ps, cs, 0);
  }

  /** Each recorded boundary p of the text receives one pool character,
   *  which lands immediately before the original text[p]: the k-th
   *  recorded boundary is shifted by the k insertions made below it. */
  lemma TrapsInsertionSites(text: string, cfg: Level, coin: nat -> bool, pick: nat -> nat)
    requires LevelOk(cfg) && !AllSpace(text)
    ensures var r := Traps(text, cfg, coin, pick);
      var ps := MarkedPositions(text, cfg.interval, coin);
      forall k :: 0 <= k < |ps| ==>
        1 <= ps[k] < |text| && ps[k] + k + 1 < |r|
        && FromNamedPool(cfg.pools, r[ps[k] + k]) && r[ps[k] + k] in PoolChars
        && r[ps[k] + k + 1] == text[ps[k]]
  {
    var ps := MarkedPositions(text, cfg.interval, coin);
    var cs := BodyChars(cfg.pools, pick, |ps|);
    TrapsUnfold(text, cfg, coin, pick);
    ScanFacts(text, cfg.interval, coin, |text|);
    forall k | 0 <= k < |cs|
      ensures FromNamedPool(cfg.pools, cs[k]) && cs[k] in PoolChars
    {
      ChooseInPoolChars(cfg.pools, pick(|ps| - 1 - k));
    }
    WovenSites(text, ps, cs, " " + EndMark(cfg.pools, pick, |ps|));
  }

  /** Deleting every pool character from the result of a text that holds
   *  none leaves the text followed by the separating space. */
  lemma TrapsRemovePoolChars(text: string, cfg: Level, coin: nat -> bool, pick: nat -> nat)
    requires LevelOk(cfg) && !AllSpace(text)
    requires forall k :: 0 <= k < |text| ==> text[k] !in PoolChars
    ensures Remove(Traps(text, cfg, coin, pick), PoolChars) == text + " "
  {
    var ps := MarkedPositions(text, cfg.interval, coin);
    var cs := BodyChars(cfg.pools, pick, |ps|);
    var mark := EndMark(cfg.pools, pick, |ps|);
    TrapsUnfold(text, cfg, coin, pick);
    forall k | 0 <= k < |cs| ensures cs[k] in PoolChars {
      ChooseInPoolChars(cfg.pools, pick(|ps| - 1 - k));
    }
    ChooseInPoolChars(cfg.pools, pick(|ps|));
    ChooseInPoolChars(cfg.pools, pick(|ps| + 1));
    var body := Weave(text, ps, cs);
    RemoveWeave(text, ps, cs, 0, PoolChars);
    assert Remove(body, PoolChars) == text;
    RemoveConcat(body + " ", mark, PoolChars);
    RemoveConcat(body, " ", PoolChars);
    assert Remove(" ", PoolChars) == " ";
    assert Remove(mark, PoolChars) == [] by {
      assert mark[1..][1..] == [];
    }
  }

  /** With every draw failing, or with no valid boundary at all, the body
   *  is the text unchanged and the end mark takes the first two picks. */
  lemma TrapsNothingInserted(text: string, cfg: Level, coin: nat -> bool, pick: nat -> nat)
    requires LevelOk(cfg) && !AllSpace(text)
    requires (forall k :: !coin(k)) || ValidCount(text, |text|) == 0
    ensures Traps(text, cfg, coin, pick) == text + " " + [Choose(cfg.pools, pick(0)), Choose(cfg.pools, pick(1))]
  {
    NothingRecorded(text, cfg.interval, coin);
    TrapsUnfold(text, cfg, coin, pick);
    assert BodyChars(cfg.pools, pick, 0) == [];
    assert Weave(text, [], []) == text;
  }

  /** "a,b": both boundaries touch the comma, so under every level the
   *  result is "a,b " followed by two pool characters. */
  lemma CommaTextGetsOnlyEndMark(name: string, coin: nat -> bool, pick: nat -> nat)
    requires name in Levels
    ensures |Traps("a,b", Levels[name], coin, pick)| == 6
    ensures Traps("a,b", Levels[name], coin, pick)[..4] == "a,b "
  {
    TablesWellFormed();
    var cfg := Levels[name];
    assert !IsSpace("a,b"[0]);
    assert !ValidBoundary("a,b", 1) && !ValidBoundary("a,b", 2) by { RawLiteralBoundaries(); }
    assert ValidCount("a,b", 3) == 0;
    TrapsNothingInserted("a,b", cfg, coin, pick);
  }

  /** "Hi" has one valid boundary, counted as the first; since every
   *  level's interval is at least 2 it is never offered a draw, and the
   *  result is "Hi " followed by two pool characters. */
  lemma TwoLetterTextGetsOnlyEndMark(name: string, coin: nat -> bool, pick: nat -> nat)
    requires name in Levels
    ensures
      Traps("Hi", Levels[name], coin, pick)
        == "Hi " + [Choose(Levels[name].pools, pick(0)), Choose(Levels[name].pools, pick(1))]
  {
    TablesWellFormed();
    var cfg := Levels[name];
    assert !IsSpace("Hi"[0]);
    assert ValidBoundary("Hi", 1) by { RawLiteralBoundaries(); }
    assert ValidCount("Hi", 2) == 1;
    EarlyBoundariesNeverRecorded("Hi", cfg.interval, coin, 1);
    ScanFacts("Hi", cfg.interval, coin, 2);
    assert MarkedPositions("Hi", cfg.interval, coin) == [];
  }

  /** What the front end shows for an input and a selected level name. */
  datatype Outcome = Shown(result: string) | EmptyInputWarning | UnknownLevel

  /** process_input without its widgets: strip the input, warn when
   *  nothing is left, look the level up by name (a missing name raises)
   *  and run the engine on the stripped input. */
  method ProcessInput(rawText: string, selectedLevel: string, coin: nat -> bool, pick: nat -> nat)
    returns (o: Outcome)
    ensures AllSpace(rawText) ==> o == EmptyInputWarning
    ensures !AllSpace(rawText) && selectedLevel !in Levels ==> o == UnknownLevel
    ensures !AllSpace(rawText) && selectedLevel in Levels ==>
      o == Shown(Traps(Strip(rawText), LevelFor(selectedLevel), coin, pick))
    ensures o.Shown? ==> |o.result| >= |Strip(rawText)| + 3
  {
    BlankIff(rawText);
    var rawInput := Strip(rawText);
    if rawInput == [] {
      return EmptyInputWarning;
    }
    if selectedLevel !in Levels {
      return UnknownLevel;
    }
    var cfg := LevelFor(selectedLevel);
    StripEnds(rawText);
    var processed := InsertAdaptiveInvisibleTraps(rawInput, cfg, coin, pick);
    TrapsLengthBounds(rawInput, cfg, coin, pick);
    o := Shown(processed);
  }
}
