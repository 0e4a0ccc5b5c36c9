/** The two string operations the agent applies to operator input:
    Python's `str.strip()` and `str.lower()`. */
module Strings {

  /** Python's `str.isspace()` on one character. */
  predicate IsSpace(c: char)
  {
    c == ' ' || ('\t' <= c <= '\r') || ('\U{1c}' <= c <= '\U{1f}') ||
    c == '\U{85}' || c == '\U{a0}' || c == '\U{1680}' || ('\U{2000}' <= c <= '\U{200a}') ||
    c == '\U{2028}' || c == '\U{2029}' || c == '\U{202f}' || c == '\U{205f}' || c == '\U{3000}'
  }

  predicate AllSpace(s: string)
  {
    forall k :: 0 <= k < |s| ==> IsSpace(s[k])
  }

  /** Removes leading whitespace: what remains is a suffix of `s` that
      starts with a non-space, and everything removed was whitespace. */
  function TrimStart(s: string): (r: string)
    ensures |r| <= |s| && r == s[|s| - |r|..]
    ensures AllSpace(s[..|s| - |r|])
    ensures r == [] || !IsSpace(r[0])
  {
    if |s| > 0 && IsSpace(s[0]) then TrimStart(s[1..]) else s
  }

  /** Removes trailing whitespace: what remains is a prefix of `s` that
      ends with a non-space, and everything removed was whitespace. */
  function TrimEnd(s: string): (r: string)
    ensures |r| <= |s| && r == s[..|r|]
    ensures AllSpace(s[|r|..])
    ensures r == [] || !IsSpace(r[|r| - 1])
  {
    if |s| > 0 && IsSpace(s[|s| - 1]) then TrimEnd(s[..|s| - 1]) else s
  }

  /** Python's `str.strip()` with no argument: a slice of `s` that neither
      starts nor ends with whitespace. */
  function Strip(s: string): (r: string)
    ensures |r| <= |s|
    ensures r == [] || (!IsSpace(r[0]) && !IsSpace(r[|r| - 1]))
  {
    TrimEnd(TrimStart(s))
  }

  /** Whitespace around a word that neither starts nor ends with
      whitespace is exactly what `Strip` removes. */
  lemma {:induction false} StripPadding(a: string, w: string, b: string)
    requires AllSpace(a) && AllSpace(b)
    requires w == [] || (!IsSpace(w[0]) && !IsSpace(w[|w| - 1]))
    ensures Strip(a + w + b) == w
  {
    WordThenPadding(w, b);
    TrimStartPadding(a, w + b);
    assert a + w + b == a + (w + b);
    if w == [] {
      assert w + b == b;
    } else {
      TrimEndPadding(w, b);
    }
  }

  /** A word followed by whitespace starts with a non-space, or is all whitespace. */
  lemma WordThenPadding(w: string, b: string)
    requires AllSpace(b)
    requires w == [] || !IsSpace(w[0])
    ensures w + b == [] || !IsSpace((w + b)[0]) || AllSpace(w + b)
    ensures AllSpace(w + b) <==> w == []
  {
    if w == [] {
      assert w + b == b;
    } else {
      assert (w + b)[0] == w[0];
    }
  }

  lemma {:induction false} TrimStartPadding(a: string, t: string)
    requires AllSpace(a)
    requires t == [] || !IsSpace(t[0]) || AllSpace(t)
    ensures TrimStart(a + t) == if AllSpace(t) then [] else t
  {
    if a == [] {
      assert a + t == t;
      if AllSpace(t) && t != [] {
        AllSpaceTrimsToEmpty(t);
      }
    } else {
      assert (a + t)[1..] == a[1..] + t;
      TrimStartPadding(a[1..], t);
    }
  }

  lemma {:induction false} AllSpaceTrimsToEmpty(t: string)
    requires AllSpace(t)
    ensures TrimStart(t) == []
  {
    if t != [] {
      AllSpaceTrimsToEmpty(t[1..]);
    }
  }

  lemma {:induction false} TrimEndPadding(w: string, b: string)
    requires AllSpace(b)
    requires w == [] || !IsSpace(w[|w| - 1])
    ensures TrimEnd(w + b) == w
  {
    if b == [] {
      assert w + b == w;
    } else {
      assert (w + b)[..|w + b| - 1] == w + b[..|b| - 1];
      TrimEndPadding(w, b[..|b| - 1]);
    }
  }

  /** Python's `str.lower()` on one ASCII letter; every other character
      is left as it is. */
  function LowerChar(c: char): (r: char)
  {
    if 'A' <= c <= 'Z' then (c as int + 32) as char else c
  }

  /** `str.lower()`: no upper-case ASCII letter is left, each one becomes
      its lower-case partner, and every other character stays in place. */
  function Lower(s: string): (r: string)
    ensures |r| == |s|
    ensures forall k :: 0 <= k < |r| ==> !('A' <= r[k] <= 'Z')
    ensures forall k :: 0 <= k < |s| ==>
              if 'A' <= s[k] <= 'Z' then r[k] as int == s[k] as int + 32 else r[k] == s[k]
  {
    seq(|s|, k requires 0 <= k < |s| => LowerChar(s[k]))
  }

  /** Lower-casing twice is lower-casing once. */
  lemma LowerIdempotent(s: string)
    ensures Lower(Lower(s)) == Lower(s)
  {
    assert forall k :: 0 <= k < |s| ==> Lower(Lower(s))[k] == Lower(s)[k];
  }

  /** Lower-casing only ever maps an upper-case ASCII letter to its
      lower-case partner: `Lower(s) == w` for an all-lower-case word `w`
      holds exactly when `s` spells `w` ignoring case. */
  lemma LowerMatchesIgnoringCase(s: string, w: string)
    requires forall k :: 0 <= k < |w| ==> 'a' <= w[k] <= 'z'
    ensures Lower(s) == w <==>
              |s| == |w| && forall k :: 0 <= k < |s| ==> s[k] == w[k] || s[k] as int == w[k] as int - 32
  {
    if |s| == |w| && forall k :: 0 <= k < |s| ==> s[k] == w[k] || s[k] as int == w[k] as int - 32 {
      assert forall k :: 0 <= k < |s| ==> Lower(s)[k] == w[k];
    }
  }
}
