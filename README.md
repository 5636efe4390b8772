# Antibody: the invisible-character insertion engine in Dafny

Antibody seeds a piece of text with invisible Unicode characters, such as
zero-width spaces and joiners, so that the copy a person reads is unchanged
while the code points the machine sees are not. This project models the
engine behind it, `insert_adaptive_invisible_traps` in `main.py`, together
with:

- the static tables it reads: the three character pools, the three
  interference levels and the set of characters that disqualify a boundary;
- its two helpers, `get_random_invisible_char` and `is_valid_insert_pos`;
- the part of the front end's `process_input` that strips the input,
  refuses blank input and looks the level up by name.

The modules follow the structure of the program:

| file | module | what it holds |
|---|---|---|
| `tables.dfy` | `Tables` | the pool table, the level table, the invalid-position literal |
| `pystrings.dfy` | `PyStrings` | Python's `str.strip()` and `str.isspace()`, which the engine uses for its blank test |
| `selection.dfy` | `Selection` | `get_random_invisible_char` |
| `boundaries.dfy` | `Boundaries` | `is_valid_insert_pos` and the marking loop, as the function `Scan` |
| `weaving.dfy` | `Weaving` | inserting characters before a list of original positions, and taking them out again |
| `engine.dfy` | `Engine` | `insert_adaptive_invisible_traps` and `process_input` |
| `arith.dfy` | `Arithmetic` | two facts about Euclidean division |

Randomness is passed in as two total functions:

- `coin(k)` is the outcome of the k-th test `random.random() < prob`.
- `pick(k)` is the index the k-th `random.choice` picks. It is reduced
  modulo the length of the flattened pool list.

The engine itself is imperative:

- `MarkInsertablePositions` is the marking loop.
- `InsertInReverse` is the reverse-order `list.insert` loop.
- `GetRandomInvisibleChar` builds `all_chars` with a loop.

Each of these is proved equal to a specification function (`Scan`, `Weave`,
`Choose`). `InsertAdaptiveInvisibleTraps` is proved equal to `Traps`, and
the lemmas about `Traps` state what the engine promises.

Points where the model follows the code rather than a reading of it:

- **The invalid-position set.** `INVALID_POS_CHARS` is a raw string
  (main.py:24). Its `\t`, `\n`, `\r` and `\"` therefore stay a backslash
  followed by a letter or a quote, and the ideographic space appears as three
  mis-decoded characters: U+00E3 and U+20AC twice. The set is thus the 32
  ASCII punctuation characters, the space, U+00E3, U+20AC and the letters
  `t`, `n` and `r`. It does not contain TAB, LF, CR or U+3000.
  `Tables.InvalidPosCharsExactly` and `Tables.ControlCharsNotInvalid` state
  this. A word such as "tree" thus has no valid boundary next to its `t`
  or its `r`.
- **The first valid boundary is never offered a draw.** The counter is
  incremented before the test `char_count % interval == 0` (main.py:57-58),
  so the first valid boundary is tested with count 1. The k-th valid
  boundary can therefore receive an insertion only when k is a multiple of
  the interval, and with every level's interval at least 2 the first one
  never does. In particular `"Hi"`, whose only boundary is valid, always
  yields `"Hi "` plus two pool characters
  (`Engine.TwoLetterTextGetsOnlyEndMark`).
- **Content preservation.** The output minus every pool character equals
  the input plus a space only when the input holds no pool character. The
  Expansion Pool contains a real TAB and U+00A0, both of which may occur in
  the input. `Engine.TrapsRemovePoolChars` therefore carries that
  hypothesis. `Engine.TrapsPreservesText` states the unconditional form: it
  removes the characters at the recorded positions instead.
- **An unknown level name.** `process_input` raises `KeyError` on a level
  name that is not in the table. `ProcessInput` returns `UnknownLevel`
  instead.

## Model

| member | source | states |
|---|---|---|
| Tables.InvalidPosCharsExactly | main.py:24 | a character is in the raw invalid-position literal exactly when it is ASCII punctuation, the space, U+00E3, U+20AC or one of the letters t, n, r |
| Tables.ControlCharsNotInvalid | main.py:24 | TAB, LF, CR and U+3000 are not in the literal, while the backslash and the letter t are |
| Tables.LabelsIdentifyPools | main.py:10-21 | distinct pool names have distinct strings, every name a level lists is a key of the pool table, and the levels list "Basic Pool"; "Basic Pool", "Expansion Pool"; and all three, in that order |
| Tables.PoolCharsExactly | main.py:10-14 | the nine invisible characters are exactly the union of the three pools |
| Tables.LevelFor | main.py:17-21 | every level in the table has interval at least 2 and names at least one existing pool |
| Tables.TablesWellFormed | main.py:10-21 | every pool is non-empty, every level is usable by the engine, and the level names are exactly the three offered |
| Tables.LevelsOrdered | main.py:17-21 | from Mild to Moderate to Severe the interval decreases, the probability increases and each pool list extends the previous one |
| PyStrings.TrimLeft | main.py:41 | left stripping leaves a suffix, drops only whitespace and leaves no leading whitespace |
| PyStrings.TrimRight | main.py:41 | right stripping leaves a prefix, drops only whitespace and leaves no trailing whitespace |
| PyStrings.StripInfix | main.py:41 | `strip()` returns the contiguous piece of the text that starts where the leading whitespace ends |
| PyStrings.StripCutsOnlySpace | main.py:41 | every character `strip()` cuts off, on either side, is whitespace |
| PyStrings.StripEnds | main.py:176 | a non-empty stripped string neither starts nor ends with whitespace |
| PyStrings.BlankIff | main.py:41 | `not text.strip()` holds exactly when the text is empty or entirely whitespace |
| Selection.FlattenMembership | main.py:28-30 | a character is in `all_chars` exactly when one of the named pools holds it |
| Selection.FlattenLength | main.py:28-30 | `all_chars` has three characters per named pool |
| Selection.Choose | main.py:31 | the chosen character belongs to one of the named pools |
| Selection.ChooseAt | main.py:31 | an index within range selects the character at that index of `all_chars` |
| Selection.ChooseCovers | main.py:26-31 | every character of every named pool is reached by some index into `all_chars`; with `ChooseAt` (one index per slot) and `FlattenLength` (three slots per pool) this is the per-character weighting |
| Selection.ChooseInPoolChars | main.py:26-31 | whatever is chosen is one of the nine invisible characters |
| Selection.GetRandomInvisibleChar | main.py:26-31 | the loop builds `all_chars` as the pools in order and returns the character `Choose` specifies, which lies in a named pool |
| Boundaries.IsValidInsertPosLiteral | main.py:33-37 | a boundary is valid exactly when neither neighbour occurs in the invalid-position literal |
| Boundaries.RawLiteralBoundaries | main.py:24-37 | boundaries next to t, n, r, a backslash, a comma or a space are refused; boundaries next to TAB, LF or CR, and the boundary of "Hi", are accepted |
| Boundaries.ValidCount | main.py:53-57 | the number of valid boundaries below i is below i, or zero |
| Boundaries.ScanFacts | main.py:52-59 | after the scan, the counter is the number of valid boundaries and exactly counter / interval draws were consumed; at most one position is recorded per draw, increasing and within the text's boundaries |
| Boundaries.ScanRecordsExactly | main.py:52-59 | a boundary is recorded exactly when it is valid, its count is a multiple of the interval and the draw made there succeeds |
| Boundaries.EarlyBoundariesNeverRecorded | main.py:57-58 | a valid boundary whose count is below the interval is never recorded |
| Boundaries.DrawsIndependentOfOutcomes | main.py:52-59 | the counter and the number of draws do not depend on the draws' outcomes |
| Boundaries.NoSuccessNoMarks | main.py:58-59 | when every draw fails, nothing is recorded |
| Boundaries.NothingRecorded | main.py:52-59 | when every draw fails or no boundary is valid, the list of positions is empty |
| Weaving.Insert | main.py:63 | `list.insert(pos, c)` puts c at pos, moves the rest up by one and keeps everything before pos |
| Weaving.WeaveLength | main.py:61-63 | each insertion adds exactly one character |
| Weaving.UnweaveWeave | main.py:61-63 | deleting the inserted characters from the woven string gives back the text |
| Weaving.WeaveSplit | main.py:61-63 | text before the first insertion point is copied unchanged |
| Weaving.InsertBelowWoven | main.py:61-63 | inserting at a lower position after the higher ones have been applied gives the same string as weaving them all, so reverse order never moves a pending position |
| Weaving.WovenAt | main.py:61-63 | the k-th inserted character sits at its original position plus k and is followed by the original character from that position |
| Weaving.WovenSites | main.py:61-67 | appending the end mark leaves those sites in place |
| Weaving.RemoveConcat | main.py:61-67 | deleting characters distributes over concatenation |
| Weaving.RemoveWeave | main.py:61-63 | when the text holds no droppable character and every inserted one is droppable, deleting them gives back the text |
| Engine.BodyChars | main.py:62-63 | one inserted character per recorded position, each from a pool the level names |
| Engine.EndMark | main.py:66 | the end mark is two characters, each from a pool the level names |
| Engine.InsertAdaptiveInvisibleTraps | main.py:39-67 | the engine returns `Traps`: "" for blank text, otherwise the woven text, a space and the end mark, whose two characters take the two draws after those the body consumed |
| Engine.MarkInsertablePositions | main.py:48-59 | the marking loop records exactly the positions of `Scan`, increasing and between 1 and len-1 |
| Engine.InsertInReverse | main.py:61-63 | the reverse-order insertion loop, counting its own draws, produces the text woven with one chosen character before each recorded position, the j-th of n positions taking draw n-1-j, and consumes exactly n draws |
| Engine.TrapsEmptyIff | main.py:41-42 | the result is empty exactly when the text is blank; non-blank text always gets the end mark |
| Engine.TrapsShape | main.py:61-67 | for non-blank text the length is the text's length plus one per recorded position plus three; the third character from the end is a space and the last two are invisible characters from pools the level names |
| Engine.TrapsLengthBounds | main.py:52-67 | output length is at least the input length plus 3 and at most that plus (valid boundaries / interval) |
| Engine.TrapsPreservesText | main.py:61-67 | deleting the characters at the recorded positions from the output minus its last three characters gives the input back |
| Engine.TrapsInsertionSites | main.py:61-63 | the k-th recorded boundary p receives, at p+k, an invisible character from a pool the level names, and the original text[p] follows it |
| Engine.TrapsRemovePoolChars | main.py:61-67 | for text without pool characters, deleting every pool character from the output leaves the text followed by a space |
| Engine.TrapsNothingInserted | main.py:52-67 | when every draw fails or no boundary is valid, the output is the text, a space and two chosen characters |
| Engine.CommaTextGetsOnlyEndMark | main.py:24-67 | under every level "a,b" becomes "a,b " followed by two characters |
| Engine.TwoLetterTextGetsOnlyEndMark | main.py:53-67 | under every level "Hi" becomes "Hi " followed by two chosen characters |
| Engine.ProcessInput | main.py:173-189 | whitespace-only input gives the empty-input warning; an unknown level name gives an error; otherwise the engine's result on the stripped input is shown, at least three characters longer than that input |

## Left out

- The PyQt5 window, its widgets, the clipboard and the message boxes
  (main.py:69-211) are presentation with no logic. The front end is modelled
  only by `ProcessInput`.
- `copy_result` (main.py:192-205) only strips the shown text and hands it to
  the clipboard. It is not modelled.
- Random draws are abstract. The probabilities are carried in the level
  table as data, but no distribution is modelled. Statements about uniform
  choice, or about the expected number of insertions per level, are
  therefore not proved. `Selection.ChooseCovers` and
  `Tables.LevelsOrdered` state what can be said without probability.
- `Selection.Choose`: `random.choice` is modelled as an index reduced
  modulo the list's length, not as a uniform draw.
- `Engine.InsertAdaptiveInvisibleTraps` requires `LevelOk`: an interval of
  at least 1 and a non-empty pool list. Every level in the table meets it.
  The configurations it excludes are not modelled. For these the source
  raises only on some inputs and returns normally on the others:
  - Interval 0 raises `ZeroDivisionError` at main.py:58 once a first valid
    boundary has been counted. Blank text (main.py:41-42) and text with no
    valid boundary, such as "a,b", return normally.
  - An empty pool list raises `IndexError` at main.py:31 for every
    non-blank text, at the latest when the end mark is drawn (main.py:66).
    Blank text returns "".
- `Selection.GetRandomInvisibleChar` requires a non-empty pool list, as
  `random.choice` at main.py:31 raises `IndexError` on an empty one.
- The pool table is keyed by the datatype `PoolName` instead of by strings.
  `PoolName.Label` gives each name's string, and
  `Tables.LabelsIdentifyPools` ties them to the level table. A pool name
  that is not a key, which would raise `KeyError` at main.py:30, cannot be
  written in the model. `PoolNamesOk` is therefore no restriction.
- `Engine.ProcessInput` returns `UnknownLevel` where the source raises
  `KeyError`.
- Python strings are sequences of code points and are modelled as
  `seq<char>`. `str.isspace` is spelled out as the list of code points
  Python treats as whitespace.
