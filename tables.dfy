// The static configuration of the interference engine: the invisible
// character pools, the three interference levels and the characters that
// disqualify an insertion boundary (main.py:10-24).

module Tables {

  /** An interference level: insert at every `interval`-th valid boundary,
   *  with a draw of `probability`, using characters from the named pools.
   *  The probability is carried as opaque data; the engine sees only the
   *  outcome of each draw. */
  datatype Level = Level(interval: nat, probability: real, pools: seq<PoolName>)

  /** The keys of the pool table. The table is keyed by these names only,
   *  so the model gives them a type of their own. */
  datatype PoolName = BasicPool | ExpansionPool | SparePool
  {
    function Label(): string {
      match this
      case BasicPool => "Basic Pool"
      case ExpansionPool => "Expansion Pool"
      case SparePool => "Spare Pool"
    }
  }

  /** The names are told apart by their strings, and the pool lists of
   *  the level table spell, through `Label`, exactly the names that
   *  INTERFERENCE_LEVELS lists. */
  lemma LabelsIdentifyPools()
    ensures forall a: PoolName, b: PoolName :: a.Label() == b.Label() ==> a == b
    ensures forall name :: name in Levels ==>
      forall k :: 0 <= k < |Levels[name].pools| ==> Levels[name].pools[k] in Pools
    ensures Labels(Levels[Mild].pools) == ["Basic Pool"]
    ensures Labels(Levels[Moderate].pools) == ["Basic Pool", "Expansion Pool"]
    ensures Labels(Levels[Severe].pools) == ["Basic Pool", "Expansion Pool", "Spare Pool"]
  {
    assert Labels(Levels[Severe].pools) == ["Basic Pool", "Expansion Pool", "Spare Pool"];
  }

  /** The strings of a list of pool names. */
  function Labels(names: seq<PoolName>): (ls: seq<string>)
    ensures |ls| == |names| && forall k :: 0 <= k < |names| ==> ls[k] == names[k].Label()
  {
    seq(|names|, k requires 0 <= k < |names| => names[k].Label())
  }

  /** INVISIBLE_CHAR_POOLS. The Expansion Pool holds a real TAB (U+0009). */
  const Pools: map<PoolName, string> := map[
    BasicPool := "\U{200B}\U{200C}\U{200D}",
    ExpansionPool := "\U{00A0}\U{0009}\U{200E}",
    SparePool := "\U{202F}\U{2060}\U{FEFF}"
  ]

  /** Every character of every pool. */
  const PoolChars: set<char> := {
    '\U{200B}', '\U{200C}', '\U{200D}', '\U{00A0}', '\U{0009}', '\U{200E}',
    '\U{202F}', '\U{2060}', '\U{FEFF}'
  }

  const Mild: string := "Mild Interference"
  const Moderate: string := "Moderate Interference"
  const Severe: string := "Severe interference"

  /** INTERFERENCE_LEVELS, keyed by the names the level selector offers. */
  const Levels: map<string, Level> := map[
    Mild := Level(5, 0.2, [BasicPool]),
    Moderate := Level(3, 0.5, [BasicPool, ExpansionPool]),
    Severe := Level(2, 0.8, [BasicPool, ExpansionPool, SparePool])
  ]

  /** INVALID_POS_CHARS exactly as the raw literal spells it: every escape
   *  sequence stays a backslash followed by a letter, and the ideographic
   *  space appears as its mis-decoded UTF-8 bytes U+00E3 U+20AC U+20AC. */
  const InvalidPosChars: string :=
    "!\\\"#$%&'()*+,-./:;<=>?@[\\]^_`{|}~ \U{00E3}\U{20AC}\U{20AC}\\t\\n\\r"

  /** All 32 ASCII punctuation characters. */
  predicate AsciiPunctuation(c: char) {
    '!' <= c <= '/' || ':' <= c <= '@' || '[' <= c <= '`' || '{' <= c <= '~'
  }

  /** An independent description of the disqualifying characters. */
  predicate Disqualifying(c: char) {
    AsciiPunctuation(c) || c == ' ' || c == '\U{00E3}' || c == '\U{20AC}'
    || c == 't' || c == 'n' || c == 'r'
  }

  /** Every name in `names` is a key of the pool table. */
  predicate PoolNamesOk(names: seq<PoolName>) {
    forall k :: 0 <= k < |names| ==> names[k] in Pools
  }

  /** What the engine needs of a configuration: a positive interval (the
   *  modulus) and at least one existing pool to draw from. */
  predicate LevelOk(cfg: Level) {
    cfg.interval >= 1 && |cfg.pools| > 0 && PoolNamesOk(cfg.pools)
  }

  /** The literal invalid set is the ASCII punctuation, the space, the two
   *  mojibake code points and the letters t, n and r — and not TAB, LF, CR. */
  lemma InvalidPosCharsExactly(c: char)
    ensures c in InvalidPosChars <==> Disqualifying(c)
  {
    if c in InvalidPosChars {
      LiteralCharsDisqualify(c);
    }
  }

  lemma LiteralCharsDisqualify(c: char)
    requires c in InvalidPosChars
    ensures Disqualifying(c)
  {
    EveryLiteralCharDisqualifies();
  }

  lemma EveryLiteralCharDisqualifies()
    ensures forall i :: 0 <= i < |InvalidPosChars| ==> Disqualifying(InvalidPosChars[i])
  {
  }

  /** Control characters and the real ideographic space do not disqualify. */
  lemma ControlCharsNotInvalid()
    ensures '\t' !in InvalidPosChars && '\n' !in InvalidPosChars && '\r' !in InvalidPosChars
    ensures '\U{3000}' !in InvalidPosChars
    ensures '\\' in InvalidPosChars && 't' in InvalidPosChars
  {
    InvalidPosCharsExactly('\t');
    InvalidPosCharsExactly('\n');
    InvalidPosCharsExactly('\r');
    InvalidPosCharsExactly('\U{3000}');
    InvalidPosCharsExactly('\\');
    InvalidPosCharsExactly('t');
  }

  /** PoolChars is the union of the pool table. */
  lemma PoolCharsExactly(c: char)
    ensures c in PoolChars <==> exists name :: name in Pools && c in Pools[name]
  {
    if c in PoolChars {
      assert c in Pools[BasicPool] || c in Pools[ExpansionPool] || c in Pools[SparePool];
    }
  }

  /** The level a selector name refers to; every one the table holds can
   *  be handed to the engine. */
  function LevelFor(name: string): (cfg: Level)
    requires name in Levels
    ensures LevelOk(cfg) && cfg.interval >= 2
  {
    Levels[name]
  }

  /** Every pool is non-empty and every level is usable by the engine. */
  lemma TablesWellFormed()
    ensures forall name :: name in Pools ==> |Pools[name]| > 0
    ensures forall name :: name in Levels ==> LevelOk(Levels[name])
    ensures Levels.Keys == {Mild, Moderate, Severe}
  {
  }

  /** The levels form an ordered scale: smaller interval, higher probability
   *  and a superset of pools from Mild to Moderate to Severe. */
  lemma LevelsOrdered()
    ensures Levels[Severe].interval < Levels[Moderate].interval < Levels[Mild].interval
    ensures Levels[Mild].probability < Levels[Moderate].probability < Levels[Severe].probability
    ensures Levels[Mild].pools <= Levels[Moderate].pools <= Levels[Severe].pools
  {
  }
}
