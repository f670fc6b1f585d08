/** The few ECMAScript string operations the controller relies on:
    `String.prototype.trim`, `includes` and `startsWith`. */
module JsString {

  /** WhiteSpace and LineTerminator code points of ECMAScript (sections 12.2
      and 12.3 of ECMA-262), the characters `trim` removes. */
  predicate IsJsWhitespace(c: char) {
    || c == '\t' || c == '\n' || c == '\U{B}' || c == '\U{C}' || c == '\r'
    || c == ' ' || c == '\U{A0}' || c == '\U{1680}'
    || ('\U{2000}' <= c <= '\U{200A}')
    || c == '\U{2028}' || c == '\U{2029}' || c == '\U{202F}' || c == '\U{205F}'
    || c == '\U{3000}' || c == '\U{FEFF}'
  }

  predicate AllWhitespace(s: string) {
    forall i :: 0 <= i < |s| ==> IsJsWhitespace(s[i])
  }

  /** Neither the first nor the last character is whitespace. */
  predicate NoEdgeWhitespace(s: string) {
    s != [] ==> !IsJsWhitespace(s[0]) && !IsJsWhitespace(s[|s| - 1])
  }

  /** `r` sits at offset `i` of `s` with only whitespace around it. */
  predicate TrimmedAt(s: string, r: string, i: int) {
    && 0 <= i && i + |r| <= |s|
    && s[i..i + |r|] == r
    && AllWhitespace(s[..i])
    && AllWhitespace(s[i + |r|..])
  }

  function TrimStart(s: string): (r: string)
    ensures |r| <= |s| && r == s[|s| - |r|..]
    ensures AllWhitespace(s[..|s| - |r|])
    ensures r != [] ==> !IsJsWhitespace(r[0])
  {
    if s != [] && IsJsWhitespace(s[0]) then
      var r := TrimStart(s[1..]);
      CutMoreFront(s, s[1..], r);
      r
    else s
  }

  function TrimEnd(s: string): (r: string)
    ensures |r| <= |s| && r == s[..|r|]
    ensures AllWhitespace(s[|r|..])
    ensures r != [] ==> !IsJsWhitespace(r[|r| - 1])
  {
    if s != [] && IsJsWhitespace(s[|s| - 1]) then
      var r := TrimEnd(s[..|s| - 1]);
      CutMoreBack(s, s[..|s| - 1], r);
      r
    else s
  }

  /** Cutting one more whitespace character off the front. */
  lemma CutMoreFront(s: string, t: string, r: string)
    requires s != [] && IsJsWhitespace(s[0]) && t == s[1..]
    requires |r| <= |t| && r == t[|t| - |r|..] && AllWhitespace(t[..|t| - |r|])
    ensures |r| <= |s| && r == s[|s| - |r|..] && AllWhitespace(s[..|s| - |r|])
  {
    assert s[..|s| - |r|] == [s[0]] + t[..|t| - |r|];
  }

  /** Cutting one more whitespace character off the back. */
  lemma CutMoreBack(s: string, t: string, r: string)
    requires s != [] && IsJsWhitespace(s[|s| - 1]) && t == s[..|s| - 1]
    requires |r| <= |t| && r == t[..|r|] && AllWhitespace(t[|r|..])
    ensures |r| <= |s| && r == s[..|r|] && AllWhitespace(s[|r|..])
  {
    assert s[|r|..] == t[|r|..] + [s[|s| - 1]];
  }

  /** `String.prototype.trim`: strip leading and trailing whitespace. */
  function Trim(s: string): (r: string)
    ensures NoEdgeWhitespace(r)
    ensures TrimmedAt(s, r, |s| - |TrimStart(s)|)
  {
    var t := TrimStart(s);
    var r := TrimEnd(t);
    TrimFacts(s, t, r);
    r
  }

  lemma TrimFacts(s: string, t: string, r: string)
    requires |t| <= |s| && t == s[|s| - |t|..] && AllWhitespace(s[..|s| - |t|])
    requires t != [] ==> !IsJsWhitespace(t[0])
    requires |r| <= |t| && r == t[..|r|] && AllWhitespace(t[|r|..])
    requires r != [] ==> !IsJsWhitespace(r[|r| - 1])
    ensures NoEdgeWhitespace(r)
    ensures TrimmedAt(s, r, |s| - |t|)
  {
    var i := |s| - |t|;
    assert s[i..i + |r|] == r;
    assert s[i + |r|..] == t[|r|..];
    if r != [] {
      assert r[0] == t[0];
    }
  }

  /** Whatever sits, surrounded only by whitespace, inside `s` without
      whitespace at its own edges is exactly `Trim(s)`: the reference
      characterisation of `trim`. */
  lemma TrimUnique(s: string, r: string, i: int)
    requires TrimmedAt(s, r, i) && NoEdgeWhitespace(r)
    ensures r == Trim(s)
  {
    var t := Trim(s);
    TrimmedCoreUnique(s, r, i, t, |s| - |TrimStart(s)|);
  }

  /** A string trims to nothing exactly when it is all whitespace. */
  lemma TrimEmptyIff(s: string)
    ensures Trim(s) == [] <==> AllWhitespace(s)
  {
    var t := Trim(s);
    TrimmedCoreEmpty(s, t, |s| - |TrimStart(s)|);
  }

  lemma TrimmedCoreEmpty(s: string, r: string, i: int)
    requires TrimmedAt(s, r, i) && NoEdgeWhitespace(r)
    ensures r == [] <==> AllWhitespace(s)
  {
    if r == [] {
      forall k | 0 <= k < |s| ensures IsJsWhitespace(s[k]) {
        if k < i { assert s[..i][k] == s[k]; }
        else { assert s[i..][k - i] == s[k]; }
      }
    } else {
      assert s[i] == r[0];
    }
  }

  /** Two cores of `s` without whitespace at their edges and with only
      whitespace around them coincide. */
  lemma TrimmedCoreUnique(s: string, r: string, i: int, t: string, j: int)
    requires TrimmedAt(s, r, i) && NoEdgeWhitespace(r)
    requires TrimmedAt(s, t, j) && NoEdgeWhitespace(t)
    ensures r == t
  {
    TrimmedCoreEmpty(s, r, i);
    TrimmedCoreEmpty(s, t, j);
    if r != [] {
      // the first character that is not whitespace is at i, and also at j
      assert !IsJsWhitespace(s[i]) && !IsJsWhitespace(s[j]) by {
        assert s[i] == r[0] && s[j] == t[0];
      }
      LeadingWhitespace(s, i);
      LeadingWhitespace(s, j);
      assert i == j;
      // the last one is at i + |r| - 1, and also at j + |t| - 1
      assert !IsJsWhitespace(s[i + |r| - 1]) && !IsJsWhitespace(s[j + |t| - 1]) by {
        assert s[i + |r| - 1] == r[|r| - 1] && s[j + |t| - 1] == t[|t| - 1];
      }
      TrailingWhitespace(s, i + |r|);
      TrailingWhitespace(s, j + |t|);
      assert |r| == |t|;
    }
  }

  lemma LeadingWhitespace(s: string, i: int)
    requires 0 <= i <= |s| && AllWhitespace(s[..i])
    ensures forall k :: 0 <= k < i ==> IsJsWhitespace(s[k])
  {
    forall k | 0 <= k < i ensures IsJsWhitespace(s[k]) {
      assert s[..i][k] == s[k];
    }
  }

  lemma TrailingWhitespace(s: string, j: int)
    requires 0 <= j <= |s| && AllWhitespace(s[j..])
    ensures forall k :: j <= k < |s| ==> IsJsWhitespace(s[k])
  {
    forall k | j <= k < |s| ensures IsJsWhitespace(s[k]) {
      assert s[j..][k - j] == s[k];
    }
  }

  lemma TrimIdempotent(s: string)
    ensures Trim(Trim(s)) == Trim(s)
  {
    var t := Trim(s);
    assert TrimmedAt(t, t, 0) by {
      assert t[..0] == [] && t[|t|..] == [];
    }
    TrimUnique(t, t, 0);
  }

  /** `p` occurs in `s` starting at index `k`. */
  predicate OccursAt(s: string, p: string, k: int) {
    0 <= k && k + |p| <= |s| && s[k..k + |p|] == p
  }

  predicate StartsWith(s: string, p: string) {
    |p| <= |s| && s[..|p|] == p
  }

  /** `String.prototype.includes`, computed by scanning from the left. */
  function Includes(s: string, p: string): (b: bool)
    ensures b <==> exists k :: OccursAt(s, p, k)
    decreases |s|
  {
    if |s| < |p| then
      assert forall k :: !OccursAt(s, p, k);
      false
    else if s[..|p|] == p then
      assert OccursAt(s, p, 0);
      true
    else
      var b := Includes(s[1..], p);
      assert forall k :: OccursAt(s[1..], p, k) <==> OccursAt(s, p, k + 1) by {
        forall k | OccursAt(s[1..], p, k) || OccursAt(s, p, k + 1)
          ensures s[1..][k..k + |p|] == s[k + 1..k + 1 + |p|] { }
      }
      assert forall k :: OccursAt(s, p, k) ==> k > 0;
      assert forall k :: OccursAt(s, p, k) ==> OccursAt(s[1..], p, k - 1);
      b
  }
}
