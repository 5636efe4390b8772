// Inserting one character before each of a list of original positions,
// as the reverse-order insertion loop of main.py:61-63 does, and taking
// those characters out again.

module Weaving {
  import opened Boundaries

  /** Python's list.insert(pos, c) for 0 <= pos <= len. */
  function Insert(s: string, pos: nat, c: char): (r: string)
    requires pos <= |s|
    ensures |r| == |s| + 1 && r[pos] == c
    ensures r[..pos] == s[..pos] && r[pos + 1..] == s[pos..]
  {
    s[..pos] + [c] + s[pos..]
  }

  /** The positions lie in [lo, hi]. */
  predicate InRange(ps: seq<nat>, lo: nat, hi: nat) {
    forall k :: 0 <= k < |ps| ==> lo <= ps[k] <= hi
  }

  /** t[lo..] with cs[k] placed immediately before the original t[ps[k]],
   *  the positions counted in the original text. */
  function WeaveFrom(t: string, ps: seq<nat>, cs: seq<char>, lo: nat): string
    requires |cs| == |ps| && lo <= |t| && Increasing(ps) && InRange(ps, lo, |t|)
    decreases |ps|
  {
    if ps == [] then t[lo..]
    else t[lo..ps[0]] + [cs[0]] + WeaveFrom(t, ps[1..], cs[1..], ps[0])
  }

  function Weave(t: string, ps: seq<nat>, cs: seq<char>): string
    requires |cs| == |ps| && Increasing(ps) && InRange(ps, 0, |t|)
  {
    WeaveFrom(t, ps, cs, 0)
  }

  /** Deletes, from a woven string, the characters inserted before the
   *  original positions `ps`. */
  function UnweaveFrom(w: string, ps: seq<nat>, lo: nat): string
    requires Increasing(ps) && (ps == [] || lo <= ps[0])
    decreases |ps|
  {
    if ps == [] || |w| <= ps[0] - lo then w
    else w[..ps[0] - lo] + UnweaveFrom(w[ps[0] - lo + 1..], ps[1..], ps[0])
  }

  function Unweave(w: string, ps: seq<nat>): string
    requires Increasing(ps)
  {
    UnweaveFrom(w, ps, 0)
  }

  /** Each insertion adds exactly one character. */
  lemma {:induction false} WeaveLength(t: string, ps: seq<nat>, cs: seq<char>, lo: nat)
    requires |cs| == |ps| && lo <= |t| && Increasing(ps) && InRange(ps, lo, |t|)
    ensures |WeaveFrom(t, ps, cs, lo)| == |t| - lo + |ps|
    decreases |ps|
  {
    if ps != [] {
      WeaveLength(t, ps[1..], cs[1..], ps[0]);
    }
  }

  /** Deleting the inserted characters gives back the original text. */
  lemma {:induction false} UnweaveWeave(t: string, ps: seq<nat>, cs: seq<char>, lo: nat)
    requires |cs| == |ps| && lo <= |t| && Increasing(ps) && InRange(ps, lo, |t|)
    ensures UnweaveFrom(WeaveFrom(t, ps, cs, lo), ps, lo) == t[lo..]
    decreases |ps|
  {
    if ps != [] {
      var w := WeaveFrom(t, ps, cs, lo);
      var rest := WeaveFrom(t, ps[1..], cs[1..], ps[0]);
      assert w[..ps[0] - lo] == t[lo..ps[0]];
      assert w[ps[0] - lo + 1..] == rest;
      UnweaveWeave(t, ps[1..], cs[1..], ps[0]);
      assert t[lo..] == t[lo..ps[0]] + t[ps[0]..];
    }
  }

  /** Text before the first insertion point is copied unchanged. */
  lemma WeaveSplit(t: string, ps: seq<nat>, cs: seq<char>, lo: nat, m: nat)
    requires |cs| == |ps| && lo <= |t| && Increasing(ps) && InRange(ps, lo, |t|)
    requires lo <= m <= (if ps == [] then |t| else ps[0])
    ensures InRange(ps, m, |t|)
    ensures WeaveFrom(t, ps, cs, lo) == t[lo..m] + WeaveFrom(t, ps, cs, m)
  {
    if ps == [] {
      assert t[lo..] == t[lo..m] + t[m..];
    } else {
      WeaveSplitCons(t, ps, cs, lo, m);
    }
  }

  lemma WeaveSplitCons(t: string, ps: seq<nat>, cs: seq<char>, lo: nat, m: nat)
    requires |cs| == |ps| && lo <= |t| && Increasing(ps) && InRange(ps, lo, |t|)
    requires ps != [] && lo <= m <= ps[0]
    ensures InRange(ps, m, |t|)
    ensures WeaveFrom(t, ps, cs, lo) == t[lo..m] + WeaveFrom(t, ps, cs, m)
  {
    assert InRange(ps, m, |t|) by {
      forall k | 0 <= k < |ps| ensures m <= ps[k] {
        if k > 0 {
          assert ps[0] < ps[k];
        }
      }
    }
    WeaveFromCons(t, ps, cs, lo, m);
  }

  lemma WeaveFromCons(t: string, ps: seq<nat>, cs: seq<char>, lo: nat, m: nat)
    requires |cs| == |ps| && lo <= |t| && Increasing(ps) && InRange(ps, lo, |t|) && InRange(ps, m, |t|)
    requires ps != [] && lo <= m <= ps[0]
    ensures WeaveFrom(t, ps, cs, lo) == t[lo..m] + WeaveFrom(t, ps, cs, m)
  {
    var a, b := t[lo..m], t[m..ps[0]];
    var r := [cs[0]] + WeaveFrom(t, ps[1..], cs[1..], ps[0]);
    assert WeaveFrom(t, ps, cs, lo) == (a + b) + r by {
      assert t[lo..ps[0]] == a + b;
    }
    assert WeaveFrom(t, ps, cs, m) == b + r;
    ConcatAssoc(a, b, r);
  }

  /** Associativity, stated apart so that it is proved outside the
   *  context of the slices above. */
  lemma ConcatAssoc(a: string, b: string, c: string)
    ensures (a + b) + c == a + (b + c)
  {
  }

  /** A suffix of an increasing list in range is increasing and in range,
   *  from its own first element on. */
  lemma SuffixOk(ps: seq<nat>, j: nat, lo: nat, hi: nat)
    requires Increasing(ps) && InRange(ps, lo, hi) && j <= |ps|
    ensures Increasing(ps[j..]) && InRange(ps[j..], lo, hi)
    ensures 0 < j < |ps| ==> InRange(ps[j..], ps[j - 1], hi)
  {
  }

  /** Inserting at position ps[j] after the later positions ps[j+1..] have
   *  already been applied yields the weave of ps[j..]: applying the
   *  insertions from the highest position down never disturbs a position
   *  still to be applied. */
  lemma InsertBelowWoven(t: string, ps: seq<nat>, cs: seq<char>, j: nat)
    requires |cs| == |ps| && Increasing(ps) && InRange(ps, 0, |t|) && j < |ps|
    ensures Increasing(ps[j..]) && InRange(ps[j..], 0, |t|)
    ensures Increasing(ps[j + 1..]) && InRange(ps[j + 1..], 0, |t|)
    ensures ps[j] <= |Weave(t, ps[j + 1..], cs[j + 1..])|
    ensures Weave(t, ps[j..], cs[j..]) == Insert(Weave(t, ps[j + 1..], cs[j + 1..]), ps[j], cs[j])
  {
    SuffixOk(ps, j, 0, |t|);
    SuffixOk(ps, j + 1, 0, |t|);
    var later, laterChars := ps[j + 1..], cs[j + 1..];
    assert ps[j..][1..] == later && cs[j..][1..] == laterChars;
    var w := Weave(t, later, laterChars);
    WeaveLength(t, later, laterChars, 0);
    WeaveSplit(t, later, laterChars, 0, ps[j]);
    assert w[..ps[j]] == t[..ps[j]];
    assert w[ps[j]..] == WeaveFrom(t, later, laterChars, ps[j]);
  }

  /** The k-th inserted character sits at ps[k] + k (counted from lo), and
   *  it is immediately followed by the original character at ps[k]. */
  lemma {:induction false} WovenAt(t: string, ps: seq<nat>, cs: seq<char>, lo: nat, k: nat)
    requires |cs| == |ps| && lo <= |t| && Increasing(ps) && InRange(ps, lo, |t|) && k < |ps|
    ensures |WeaveFrom(t, ps, cs, lo)| == |t| - lo + |ps|
    ensures WeaveFrom(t, ps, cs, lo)[ps[k] - lo + k] == cs[k]
    ensures ps[k] < |t| ==> WeaveFrom(t, ps, cs, lo)[ps[k] - lo + k + 1] == t[ps[k]]
    decreases k
  {
    var rest := WeaveFrom(t, ps[1..], cs[1..], ps[0]);
    WeaveLength(t, ps, cs, lo);
    WeaveLength(t, ps[1..], cs[1..], ps[0]);
    if k == 0 {
      if ps[0] < |t| {
        if |ps| > 1 {
          assert ps[0] < ps[1];
          assert rest[0] == t[ps[0]];
        } else {
          assert rest == t[ps[0]..];
        }
      }
    } else {
      WovenAt(t, ps[1..], cs[1..], ps[0], k - 1);
      assert ps[1..][k - 1] == ps[k] && cs[1..][k - 1] == cs[k];
      assert ps[0] < ps[k];
    }
  }

  /** The sites of WovenAt stay put when something is appended. */
  lemma WovenSites(t: string, ps: seq<nat>, cs: seq<char>, tail: string)
    requires |cs| == |ps| && Increasing(ps) && InRange(ps, 0, |t|)
    requires forall k :: 0 <= k < |ps| ==> ps[k] < |t|
    ensures forall k :: 0 <= k < |ps| ==>
      ps[k] + k + 1 < |Weave(t, ps, cs) + tail|
      && (Weave(t, ps, cs) + tail)[ps[k] + k] == cs[k]
      && (Weave(t, ps, cs) + tail)[ps[k] + k + 1] == t[ps[k]]
  {
    var w := Weave(t, ps, cs);
    forall k | 0 <= k < |ps|
      ensures ps[k] + k + 1 < |w + tail|
      ensures (w + tail)[ps[k] + k] == cs[k] && (w + tail)[ps[k] + k + 1] == t[ps[k]]
    {
      WovenAt(t, ps, cs, 0, k);
    }
  }

  /** `s` with every character of `drop` deleted. */
  function Remove(s: string, drop: set<char>): string {
    if s == [] then [] else (if s[0] in drop then [] else [s[0]]) + Remove(s[1..], drop)
  }

  lemma {:induction false} RemoveConcat(a: string, b: string, drop: set<char>)
    ensures Remove(a + b, drop) == Remove(a, drop) + Remove(b, drop)
  {
    if a == [] {
      assert a + b == b;
    } else {
      assert (a + b)[1..] == a[1..] + b;
      RemoveConcat(a[1..], b, drop);
    }
  }

  lemma {:induction false} RemoveNone(s: string, drop: set<char>)
    requires forall k :: 0 <= k < |s| ==> s[k] !in drop
    ensures Remove(s, drop) == s
  {
    if s != [] {
      RemoveNone(s[1..], drop);
    }
  }

  /** When no character of the text is droppable and every inserted one
   *  is, deleting the droppable characters gives back the text. */
  lemma {:induction false} RemoveWeave(t: string, ps: seq<nat>, cs: seq<char>, lo: nat, drop: set<char>)
    requires |cs| == |ps| && lo <= |t| && Increasing(ps) && InRange(ps, lo, |t|)
    requires forall k :: 0 <= k < |t| ==> t[k] !in drop
    requires forall k :: 0 <= k < |cs| ==> cs[k] in drop
    ensures Remove(WeaveFrom(t, ps, cs, lo), drop) == t[lo..]
    decreases |ps|
  {
    if ps == [] {
      RemoveNone(t[lo..], drop);
    } else {
      var rest := WeaveFrom(t, ps[1..], cs[1..], ps[0]);
      RemoveConcat(t[lo..ps[0]] + [cs[0]], rest, drop);
      RemoveConcat(t[lo..ps[0]], [cs[0]], drop);
      RemoveNone(t[lo..ps[0]], drop);
      assert Remove([cs[0]], drop) == [];
      RemoveWeave(t, ps[1..], cs[1..], ps[0], drop);
      assert t[lo..] == t[lo..ps[0]] + t[ps[0]..];
    }
  }
}
