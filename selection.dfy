// Choosing one invisible character from the pools a level names
// (get_random_invisible_char, main.py:26-31).

module Selection {
  import opened Tables
  import opened Arithmetic

  /** The pools named in `names`, concatenated in order (the `all_chars`
   *  list built by repeated `extend`). */
  function Flatten(names: seq<PoolName>): string
    requires PoolNamesOk(names)
  {
    if names == [] then [] else Flatten(names[..|names| - 1]) + Pools[names[|names| - 1]]
  }

  /** A character is in the flattened list exactly when some named pool
   *  holds it. */
  lemma {:induction false} FlattenMembership(names: seq<PoolName>, c: char)
    requires PoolNamesOk(names)
    ensures c in Flatten(names) <==> exists k :: 0 <= k < |names| && c in Pools[names[k]]
  {
    if names != [] {
      var init := names[..|names| - 1];
      FlattenMembership(init, c);
      if c in Flatten(names) && c !in Pools[names[|names| - 1]] {
        var k :| 0 <= k < |init| && c in Pools[init[k]];
        assert names[k] == init[k];
      }
      if exists k :: 0 <= k < |names| && c in Pools[names[k]] {
        var k :| 0 <= k < |names| && c in Pools[names[k]];
        if k < |init| {
          assert init[k] == names[k];
        }
      }
    }
  }

  /** The flattened list holds every character of every named pool, so it
   *  is as long as their sum and non-empty as soon as one pool is named. */
  lemma {:induction false} FlattenLength(names: seq<PoolName>)
    requires PoolNamesOk(names)
    ensures |Flatten(names)| == 3 * |names|
  {
    if names != [] {
      FlattenLength(names[..|names| - 1]);
    }
  }

  /** The character `random.choice` returns when it is handed index `pick`
   *  (reduced into range). */
  function Choose(names: seq<PoolName>, pick: nat): (c: char)
    requires PoolNamesOk(names) && |names| > 0
    ensures exists k :: 0 <= k < |names| && c in Pools[names[k]]
  {
    FlattenLength(names);
    var all := Flatten(names);
    FlattenMembership(names, all[pick % |all|]);
    all[pick % |all|]
  }

  lemma ChooseAt(names: seq<PoolName>, i: nat)
    requires PoolNamesOk(names) && |names| > 0 && i < |Flatten(names)|
    ensures Choose(names, i) == Flatten(names)[i]
  {
    DivModUnique(i, |Flatten(names)|, 0, i);
  }

  /** Every character of the flattened list can be chosen (the weighting is
   *  per character, not per pool). */
  lemma ChooseCovers(names: seq<PoolName>, c: char)
    requires PoolNamesOk(names) && |names| > 0
    requires exists k :: 0 <= k < |names| && c in Pools[names[k]]
    ensures exists pick: nat :: pick < |Flatten(names)| && Choose(names, pick) == c
  {
    FlattenMembership(names, c);
    var all := Flatten(names);
    FlattenLength(names);
    var i :| 0 <= i < |all| && all[i] == c;
    ChooseAt(names, i);
  }

  /** Whatever is chosen is an invisible pool character. */
  lemma ChooseInPoolChars(names: seq<PoolName>, pick: nat)
    requires PoolNamesOk(names) && |names| > 0
    ensures Choose(names, pick) in PoolChars
  {
    var c := Choose(names, pick);
    var k :| 0 <= k < |names| && c in Pools[names[k]];
    PoolCharsExactly(c);
  }

  /** get_random_invisible_char: collects the named pools with a loop, then
   *  picks the character at the oracle's index. */
  method GetRandomInvisibleChar(usedPools: seq<PoolName>, pick: nat) returns (c: char)
    requires PoolNamesOk(usedPools) && |usedPools| > 0
    ensures c == Choose(usedPools, pick)
    ensures exists k :: 0 <= k < |usedPools| && c in Pools[usedPools[k]]
  {
    var allChars: string := [];
    var k := 0;
    while k < |usedPools|
      invariant 0 <= k <= |usedPools|
      invariant allChars == Flatten(usedPools[..k])
    {
      assert usedPools[..k + 1][..k] == usedPools[..k];
      allChars := allChars + Pools[usedPools[k]];
      k := k + 1;
    }
    assert usedPools[..k] == usedPools;
    FlattenLength(usedPools);
    c := allChars[pick % |allChars|];
  }
}
