// Python's str.strip() with no argument, used by the engine only to decide
// whether the input is blank (main.py:41) and by the front end to clean
// the input before calling the engine (main.py:176).

module PyStrings {

  /** The code points Python's str.isspace() accepts. */
  predicate IsSpace(c: char) {
    '\U{0009}' <= c <= '\U{000D}' || '\U{001C}' <= c <= '\U{001F}' || c == ' '
    || c == '\U{0085}' || c == '\U{00A0}' || c == '\U{1680}'
    || '\U{2000}' <= c <= '\U{200A}' || c == '\U{2028}' || c == '\U{2029}'
    || c == '\U{202F}' || c == '\U{205F}' || c == '\U{3000}'
  }

  predicate AllSpace(s: string) {
    forall k :: 0 <= k < |s| ==> IsSpace(s[k])
  }

  /** Drops leading whitespace: the result is a suffix of `s`, everything
   *  dropped is whitespace and it does not start with whitespace. */
  function TrimLeft(s: string): (r: string)
    ensures |r| <= |s| && r == s[|s| - |r|..]
    ensures forall k :: 0 <= k < |s| - |r| ==> IsSpace(s[k])
    ensures r == [] || !IsSpace(r[0])
  {
    if s != [] && IsSpace(s[0]) then TrimLeft(s[1..]) else s
  }

  /** Drops trailing whitespace: the result is a prefix of `s`, everything
   *  dropped is whitespace and it does not end with whitespace. */
  function TrimRight(s: string): (r: string)
    ensures |r| <= |s| && r == s[..|r|]
    ensures forall k :: |r| <= k < |s| ==> IsSpace(s[k])
    ensures r == [] || !IsSpace(r[|r| - 1])
  {
    if s != [] && IsSpace(s[|s| - 1]) then TrimRight(s[..|s| - 1]) else s
  }

  /** str.strip(). */
  function Strip(s: string): string {
    TrimRight(TrimLeft(s))
  }

  /** Strip keeps a contiguous piece of `s`, starting where TrimLeft
   *  stopped. */
  lemma StripInfix(s: string)
    ensures var r := Strip(s); var a := |s| - |TrimLeft(s)|;
      a + |r| <= |s| && r == s[a..a + |r|]
  {
    var l := TrimLeft(s);
    var r := TrimRight(l);
    PrefixOfSuffix(s, |s| - |l|, |r|);
  }

  lemma PrefixOfSuffix(s: string, a: nat, n: nat)
    requires a + n <= |s|
    ensures s[a..][..n] == s[a..a + n]
  {
  }

  /** What Strip cuts off on either side is whitespace. */
  lemma StripCutsOnlySpace(s: string)
    ensures var a := |s| - |TrimLeft(s)|; var b := a + |Strip(s)|;
      b <= |s| && forall k :: 0 <= k < |s| && !(a <= k < b) ==> IsSpace(s[k])
  {
    var l := TrimLeft(s);
    var r := TrimRight(l);
    var a := |s| - |l|;
    forall k | a + |r| <= k < |s|
      ensures IsSpace(s[k])
    {
      assert s[k] == l[k - a];
    }
  }

  /** A non-empty stripped string neither starts nor ends with
   *  whitespace. */
  lemma StripEnds(s: string)
    ensures var r := Strip(s);
      r == [] || (!IsSpace(r[0]) && !IsSpace(r[|r| - 1]))
  {
    var l := TrimLeft(s);
    var r := TrimRight(l);
    if r != [] {
      assert r[0] == l[0];
    }
  }

  /** `not text.strip()`: the text is empty or all whitespace. */
  predicate Blank(s: string) {
    Strip(s) == []
  }

  /** A string strips to nothing exactly when every character in it is
   *  whitespace (the empty string included). */
  lemma BlankIff(s: string)
    ensures Blank(s) <==> AllSpace(s)
  {
    var l := TrimLeft(s);
    var r := TrimRight(l);
    if r == [] {
      assert l == [];
    } else {
      assert r[0] == l[0] == s[|s| - |l|];
      assert !IsSpace(s[|s| - |l|]);
    }
  }
}
