/** The code-block extractor of `EMGAnalyser.extract_code`: Python's
    `re.findall` with the pattern  ```(?:python)?\n(.*?)```  under DOTALL,
    written out as the scan the regular-expression engine performs. */
module CodeFences {
  import opened Wrappers

  /** Three consecutive backticks start at index `i` of `s`. */
  predicate FenceAt(s: string, i: int)
  {
    0 <= i && i + 3 <= |s| && s[i] == '`' && s[i + 1] == '`' && s[i + 2] == '`'
  }

  predicate HasFence(t: string)
  {
    exists k :: 0 <= k < |t| && FenceAt(t, k)
  }

  /** The characters of `python` followed by a newline start at index `j`. */
  predicate PythonTagAt(s: string, j: nat)
  {
    j + 7 <= |s| && s[j] == 'p' && s[j + 1] == 'y' && s[j + 2] == 't' && s[j + 3] == 'h' &&
    s[j + 4] == 'o' && s[j + 5] == 'n' && s[j + 6] == '\n'
  }

  /** The opening of a match at `i`: the fence, then the optional tag
      `python`, then a mandatory newline.  The optional tag is tried first;
      if the newline does not follow it the engine backtracks to an empty
      tag, which then needs the newline right after the fence.  The result
      is the index where the captured body starts. */
  function OpeningAt(s: string, i: nat): Option<nat>
  {
    if !FenceAt(s, i) then None
    else if PythonTagAt(s, i + 3) then Some(i + 10)
    else if i + 4 <= |s| && s[i + 3] == '\n' then Some(i + 4)
    else None
  }

  /** An opening is a fence and ends with a newline that lies inside the
      text, so a body starts at least four characters after the fence. */
  lemma OpeningEndsWithNewline(s: string, i: nat)
    ensures var r := OpeningAt(s, i);
      r.Some? ==> FenceAt(s, i) && i + 4 <= r.value <= |s| && s[r.value - 1] == '\n'
  {
  }

  /** The lazy `(.*?)` followed by the closing fence: the first fence at or
      after `j`, if any. */
  function ClosingFrom(s: string, j: nat): (r: Option<nat>)
    decreases |s| - j
    ensures r.Some? ==> j <= r.value && FenceAt(s, r.value)
  {
    if j + 3 > |s| then None
    else if FenceAt(s, j) then Some(j)
    else ClosingFrom(s, j + 1)
  }

  /** The closing fence found is the first one: no fence lies between `j`
      and it, and when none is found there is no fence from `j` on. */
  lemma {:induction false} ClosingIsFirst(s: string, j: nat)
    decreases |s| - j
    ensures ClosingFrom(s, j).Some? ==> forall k :: j <= k < ClosingFrom(s, j).value ==> !FenceAt(s, k)
    ensures ClosingFrom(s, j).None? ==> forall k :: j <= k ==> !FenceAt(s, k)
  {
    if j + 3 <= |s| && !FenceAt(s, j) {
      ClosingIsFirst(s, j + 1);
    }
  }

  /** One match: where its opening fence starts, where its body starts and
      where its closing fence starts; the body is `s[body..close]`. */
  datatype Span = Span(open: nat, body: nat, close: nat)

  predicate InBounds(s: string, sp: Span)
  {
    sp.open + 4 <= sp.body <= sp.close && sp.close + 3 <= |s|
  }

  /** The match the pattern makes when it is tried at index `i`. */
  function MatchAt(s: string, i: nat): (r: Option<Span>)
    ensures r.Some? ==> r.value.open == i && InBounds(s, r.value)
    ensures r.Some? ==> FenceAt(s, i) && FenceAt(s, r.value.close)
  {
    match OpeningAt(s, i)
    case None => None
    case Some(b) =>
      match ClosingFrom(s, b)
      case None => None
      case Some(c) => Some(Span(i, b, c))
  }

  /** The body of a match holds no fence. */
  lemma MatchBodyClear(s: string, i: nat)
    requires MatchAt(s, i).Some?
    ensures forall k :: MatchAt(s, i).value.body <= k < MatchAt(s, i).value.close ==> !FenceAt(s, k)
  {
    ClosingIsFirst(s, OpeningAt(s, i).value);
  }

  /** `findall` from index `i`: try the pattern at each index in turn; on a
      failure move on by one character, after a match resume just past its
      closing fence.  The spans lie inside `s` from `i` on. */
  function Scan(s: string, i: nat): (r: seq<Span>)
    decreases |s| - i
    ensures forall k :: 0 <= k < |r| ==> i <= r[k].open && InBounds(s, r[k])
  {
    if i >= |s| then []
    else
      match MatchAt(s, i)
      case None => Scan(s, i + 1)
      case Some(sp) => [sp] + Scan(s, sp.close + 3)
  }

  /** The spans come out in increasing order without overlapping: each
      starts after the closing fence of the one before. */
  lemma {:induction false} ScanOrdered(s: string, i: nat)
    decreases |s| - i
    ensures var r := Scan(s, i); forall j, k :: 0 <= j < k < |r| ==> r[j].close + 3 <= r[k].open
  {
    if i < |s| {
      match MatchAt(s, i)
      case None =>
        ScanSkip(s, i);
        ScanOrdered(s, i + 1);
      case Some(sp) =>
        ScanStep(s, i, sp, sp.close + 3);
        ScanOrdered(s, sp.close + 3);
        OrderedCons(sp, Scan(s, sp.close + 3));
    }
  }

  lemma OrderedCons(sp: Span, t: seq<Span>)
    requires forall k :: 0 <= k < |t| ==> sp.close + 3 <= t[k].open
    requires forall j, k :: 0 <= j < k < |t| ==> t[j].close + 3 <= t[k].open
    ensures var r := [sp] + t; forall j, k :: 0 <= j < k < |r| ==> r[j].close + 3 <= r[k].open
  {
    var r := [sp] + t;
    forall j, k | 0 <= j < k < |r|
      ensures r[j].close + 3 <= r[k].open
    {
      assert r[k] == t[k - 1];
      if j > 0 {
        assert r[j] == t[j - 1];
      }
    }
  }

  /** Every span the scan returns is the match the pattern makes at its start. */
  lemma {:induction false} ScanSpansAreMatches(s: string, i: nat)
    ensures forall k :: 0 <= k < |Scan(s, i)| ==> MatchAt(s, Scan(s, i)[k].open) == Some(Scan(s, i)[k])
    decreases |s| - i
  {
    if i < |s| {
      match MatchAt(s, i)
      case None =>
        ScanSkip(s, i);
        ScanSpansAreMatches(s, i + 1);
      case Some(sp) =>
        ScanStep(s, i, sp, sp.close + 3);
        ScanSpansAreMatches(s, sp.close + 3);
        var r, t := Scan(s, i), Scan(s, sp.close + 3);
        forall k | 0 <= k < |r|
          ensures MatchAt(s, r[k].open) == Some(r[k])
        {
          if k > 0 {
            assert r[k] == t[k - 1];
          }
        }
    }
  }

  /** The scan misses no match: every index where the pattern matches and
      that does not lie inside an earlier match is the start of a span. */
  lemma {:induction false} ScanFindsEveryUncoveredMatch(s: string, i: nat, p: nat)
    requires i <= p && MatchAt(s, p).Some?
    requires Uncovered(Scan(s, i), p)
    ensures exists k :: 0 <= k < |Scan(s, i)| && Scan(s, i)[k].open == p
    decreases |s| - i
  {
    assert i < |s|;
    match MatchAt(s, i)
    case None =>
      ScanSkip(s, i);
      ScanFindsEveryUncoveredMatch(s, i + 1, p);
    case Some(sp) =>
      ScanStep(s, i, sp, sp.close + 3);
      var t := Scan(s, sp.close + 3);
      if p != i {
        UncoveredTail(sp, t, p);
        ScanFindsEveryUncoveredMatch(s, sp.close + 3, p);
        FoundInTail(sp, t, p);
      } else {
        assert ([sp] + t)[0].open == p;
      }
  }

  /** No span of `r` has `p` strictly inside it or inside its closing fence. */
  predicate Uncovered(r: seq<Span>, p: nat)
  {
    forall k :: 0 <= k < |r| ==> p <= r[k].open || r[k].close + 3 <= p
  }

  lemma UncoveredTail(sp: Span, t: seq<Span>, p: nat)
    requires Uncovered([sp] + t, p) && sp.open < p
    ensures sp.close + 3 <= p && Uncovered(t, p)
  {
    assert ([sp] + t)[0] == sp;
    forall k | 0 <= k < |t|
      ensures p <= t[k].open || t[k].close + 3 <= p
    {
      assert ([sp] + t)[k + 1] == t[k];
    }
  }

  lemma FoundInTail(sp: Span, t: seq<Span>, p: nat)
    requires exists k :: 0 <= k < |t| && t[k].open == p
    ensures exists k :: 0 <= k < |[sp] + t| && ([sp] + t)[k].open == p
  {
    var k :| 0 <= k < |t| && t[k].open == p;
    assert ([sp] + t)[k + 1] == t[k];
  }

  /** One step of the scan at an index where the pattern does not match. */
  lemma ScanSkip(s: string, i: nat)
    requires i < |s| && MatchAt(s, i).None?
    ensures Scan(s, i) == Scan(s, i + 1)
  {
  }

  /** One step of the scan at an index where the pattern matches. */
  lemma ScanStep(s: string, i: nat, sp: Span, j: nat)
    requires MatchAt(s, i) == Some(sp) && j == sp.close + 3
    ensures Scan(s, i) == [sp] + Scan(s, j)
  {
  }

  /** The bodies of a list of matches. */
  function Texts(s: string, m: seq<Span>): (r: seq<string>)
    requires forall k :: 0 <= k < |m| ==> m[k].body <= m[k].close <= |s|
    ensures |r| == |m|
  {
    if m == [] then [] else [s[m[0].body..m[0].close]] + Texts(s, m[1..])
  }

  lemma {:induction false} TextsAt(s: string, m: seq<Span>, k: nat)
    requires forall j :: 0 <= j < |m| ==> m[j].body <= m[j].close <= |s|
    requires k < |m|
    ensures Texts(s, m)[k] == s[m[k].body..m[k].close]
  {
    if k > 0 {
      TextsAt(s, m[1..], k - 1);
    }
  }

  /** `extract_code(response)`: one block per match of the scan. */
  function ExtractCode(s: string): (r: seq<string>)
    ensures |r| == |Scan(s, 0)|
  {
    Texts(s, Scan(s, 0))
  }

  /** No extracted body contains a fence: the lazy body stops at the first one. */
  lemma ExtractedBodiesHaveNoFence(s: string)
    ensures forall k :: 0 <= k < |ExtractCode(s)| ==> !HasFence(ExtractCode(s)[k])
  {
    var m := Scan(s, 0);
    ScanSpansAreMatches(s, 0);
    forall k | 0 <= k < |m|
      ensures !HasFence(ExtractCode(s)[k])
    {
      TextsAt(s, m, k);
      var t := s[m[k].body..m[k].close];
      assert MatchAt(s, m[k].open) == Some(m[k]);
      MatchBodyClear(s, m[k].open);
      forall q | 0 <= q < |t|
        ensures !FenceAt(t, q)
      {
        if q + 3 <= |t| {
          assert !FenceAt(s, m[k].body + q);
          assert t[q] == s[m[k].body + q] && t[q + 1] == s[m[k].body + q + 1] && t[q + 2] == s[m[k].body + q + 2];
        }
      }
    }
  }

  /** With no fence after index `i`, nothing from `i` on is extracted. */
  lemma {:induction false} NoLaterFenceNoMatch(s: string, i: nat)
    requires forall k :: i < k ==> !FenceAt(s, k)
    ensures Scan(s, i) == []
    decreases |s| - i
  {
    if i < |s| {
      assert MatchAt(s, i) == None;
      NoLaterFenceNoMatch(s, i + 1);
    }
  }

  /** Text without any fence yields no code blocks. */
  lemma NoFenceNoBlocks(s: string)
    requires !HasFence(s)
    ensures ExtractCode(s) == []
  {
    NoLaterFenceNoMatch(s, 0);
  }

  /** An opening fence that is never closed contributes nothing and stops
      the scan: there is no match from it on. */
  lemma UnterminatedFence(s: string, i: nat)
    requires OpeningAt(s, i).Some? && ClosingFrom(s, OpeningAt(s, i).value).None?
    ensures Scan(s, i) == []
  {
    var b := OpeningAt(s, i).value;
    ClosingIsFirst(s, b);
    OpeningHasNoBacktick(s, i);
    forall k | i < k
      ensures !FenceAt(s, k)
    {
      if k < b && k + 3 <= |s| {
        if k <= i + 3 {
          assert s[i + 3] != '`';
        } else {
          assert s[k] != '`';
        }
      }
    }
    NoLaterFenceNoMatch(s, i);
  }

  /** A fence followed neither by `python` and a newline nor by a newline
      opens nothing: the pattern does not match there. */
  lemma FenceWithoutNewline(s: string, i: nat)
    requires !PythonTagAt(s, i + 3) && (i + 3 >= |s| || s[i + 3] != '\n')
    ensures MatchAt(s, i) == None
  {
  }

  /** Between an opening fence and the body it opens there is no backtick. */
  lemma OpeningHasNoBacktick(s: string, i: nat)
    requires OpeningAt(s, i).Some?
    ensures forall k :: i + 3 <= k < OpeningAt(s, i).value ==> s[k] != '`'
  {
    forall k | i + 3 <= k < OpeningAt(s, i).value
      ensures s[k] != '`'
    {
      if PythonTagAt(s, i + 3) {
        var d := k - i - 3;
        assert d == 0 || d == 1 || d == 2 || d == 3 || d == 4 || d == 5 || d == 6;
      }
    }
  }

  /** A fenced block as a model reply would write it: an opening fence,
      optionally tagged `python`, a newline, the body and a closing fence. */
  datatype Block = Block(body: string, tagged: bool)

  function Opening(b: Block): string
  {
    if b.tagged then "```python\n" else "```\n"
  }

  function Wrap(b: Block): string
  {
    Opening(b) + b.body + "```"
  }

  /** A body that can be fenced and read back: no fence inside, and no
      backtick at its end (which would merge into the closing fence). */
  predicate WellFormed(b: Block)
  {
    !HasFence(b.body) && (b.body == [] || b.body[|b.body| - 1] != '`')
  }

  predicate AllWellFormed(bs: seq<Block>)
  {
    forall k :: 0 <= k < |bs| ==> WellFormed(bs[k])
  }

  lemma AllWellFormedTail(bs: seq<Block>)
    requires bs != [] && AllWellFormed(bs)
    ensures WellFormed(bs[0]) && AllWellFormed(bs[1..])
  {
    assert forall k :: 0 <= k < |bs[1..]| ==> bs[1..][k] == bs[k + 1];
  }

  function Join(bs: seq<Block>): string
  {
    if bs == [] then "" else Wrap(bs[0]) + Join(bs[1..])
  }

  function Bodies(bs: seq<Block>): (r: seq<string>)
    ensures |r| == |bs| && forall k :: 0 <= k < |bs| ==> r[k] == bs[k].body
  {
    seq(|bs|, k requires 0 <= k < |bs| => bs[k].body)
  }

  /** The first fence at or after `j` is at `c`. */
  lemma {:induction false} ClosingIs(s: string, j: nat, c: nat)
    requires j <= c && FenceAt(s, c)
    requires forall k :: j <= k < c ==> !FenceAt(s, k)
    ensures ClosingFrom(s, j) == Some(c)
    decreases c - j
  {
    if j < c {
      assert !FenceAt(s, j);
      ClosingIs(s, j + 1, c);
    }
  }

  /** The scanner's view of a block at index `i`: the opening ends where
      the body starts, the first fence after it ends the body, and the text
      in between is the body. */
  predicate Framed(s: string, i: nat, b: Block)
  {
    var h := |Opening(b)|;
    i + h + |b.body| + 3 <= |s| &&
    OpeningAt(s, i) == Some(i + h) && ClosingFrom(s, i + h) == Some(i + h + |b.body|) &&
    s[i + h..i + h + |b.body|] == b.body
  }

  /** Wherever a well-formed block is written, the scanner sees exactly that block. */
  lemma FramedWrapped(s: string, i: nat, b: Block)
    requires WellFormed(b)
    requires i + |Wrap(b)| <= |s| && s[i..i + |Wrap(b)|] == Wrap(b)
    ensures Framed(s, i, b)
  {
    var h := |Opening(b)|;
    WrappedChars(s, i, b);
    if b.tagged {
      assert PythonTagAt(s, i + 3);
    }
    assert OpeningAt(s, i) == Some(i + h);
    var c := i + h + |b.body|;
    forall k | i + h <= k < c
      ensures !FenceAt(s, k)
    {
      if k + 3 <= c {
        assert !FenceAt(b.body, k - i - h);
        assert s[k] == b.body[k - i - h] && s[k + 1] == b.body[k - i - h + 1] && s[k + 2] == b.body[k - i - h + 2];
      } else {
        assert s[c - 1] == b.body[|b.body| - 1];
      }
    }
    ClosingIs(s, i + h, c);
    WrappedBody(s, i, b);
  }

  /** The characters of a block written at index `i`, one part at a time. */
  lemma WrappedChars(s: string, i: nat, b: Block)
    requires i + |Wrap(b)| <= |s| && s[i..i + |Wrap(b)|] == Wrap(b)
    ensures FenceAt(s, i)
    ensures b.tagged ==> s[i + 3] == 'p' && s[i + 4] == 'y' && s[i + 5] == 't' && s[i + 6] == 'h' &&
                         s[i + 7] == 'o' && s[i + 8] == 'n' && s[i + 9] == '\n'
    ensures !b.tagged ==> s[i + 3] == '\n'
    ensures forall k :: 0 <= k < |b.body| ==> s[i + |Opening(b)| + k] == b.body[k]
    ensures FenceAt(s, i + |Opening(b)| + |b.body|)
  {
    var h := |Opening(b)|;
    WrappedParts(s, i, b, h, i + h + |b.body|);
    OpeningChars(s, i, b);
    BodyChars(s, i + h, b.body);
    FenceChars(s, i + h + |b.body|);
  }

  /** A block written at index `i` is its opening, then its body, then a fence. */
  lemma WrappedParts(s: string, i: nat, b: Block, h: nat, c: nat)
    requires i + |Wrap(b)| <= |s| && s[i..i + |Wrap(b)|] == Wrap(b)
    requires h == |Opening(b)| && c == i + h + |b.body|
    ensures s[i..i + h] == Opening(b) && s[i + h..c] == b.body && c + 3 <= |s| && s[c..c + 3] == "```"
  {
    var o := Opening(b);
    assert Wrap(b) == (o + b.body) + "```";
    SplitOccurrence(s, i, o + b.body, "```", c);
    SplitOccurrence(s, i, o, b.body, i + h);
  }

  lemma FenceChars(s: string, c: nat)
    requires c + 3 <= |s| && s[c..c + 3] == "```"
    ensures FenceAt(s, c)
  {
    assert s[c] == s[c..c + 3][0] && s[c + 1] == s[c..c + 3][1] && s[c + 2] == s[c..c + 3][2];
  }

  lemma OpeningChars(s: string, i: nat, b: Block)
    requires i + |Opening(b)| <= |s| && s[i..i + |Opening(b)|] == Opening(b)
    ensures FenceAt(s, i)
    ensures b.tagged ==> s[i + 3] == 'p' && s[i + 4] == 'y' && s[i + 5] == 't' && s[i + 6] == 'h' &&
                         s[i + 7] == 'o' && s[i + 8] == 'n' && s[i + 9] == '\n'
    ensures !b.tagged ==> s[i + 3] == '\n'
  {
    var o := Opening(b);
    assert forall k :: 0 <= k < |o| ==> s[i + k] == o[k];
    assert o[0] == '`' && o[1] == '`' && o[2] == '`';
    if b.tagged {
      assert o[3] == 'p' && o[4] == 'y' && o[5] == 't' && o[6] == 'h' && o[7] == 'o' && o[8] == 'n' && o[9] == '\n';
    } else {
      assert o[3] == '\n';
    }
  }

  lemma BodyChars(s: string, j: nat, body: string)
    requires j + |body| <= |s| && s[j..j + |body|] == body
    ensures forall k :: 0 <= k < |body| ==> s[j + k] == body[k]
  {
    forall k | 0 <= k < |body|
      ensures s[j + k] == body[k]
    {
      assert s[j..j + |body|][k] == s[j + k];
    }
  }

  /** A block written at index `i` is the next match, and the scan resumes
      right after it. */
  lemma ScanWrapped(s: string, i: nat, b: Block)
    requires WellFormed(b)
    requires i + |Wrap(b)| <= |s| && s[i..i + |Wrap(b)|] == Wrap(b)
    ensures ExtractFrom(s, i) == [b.body] + ExtractFrom(s, i + |Wrap(b)|)
  {
    FramedWrapped(s, i, b);
    ScanFramed(s, i, b, i + |Wrap(b)|);
  }

  lemma ScanFramed(s: string, i: nat, b: Block, j: nat)
    requires Framed(s, i, b) && j == i + |Wrap(b)|
    ensures ExtractFrom(s, i) == [b.body] + ExtractFrom(s, j)
  {
    var sp := FramedSpan(s, i, b);
    ScanFramedSpans(s, i, b, j);
    TextsConsBody(s, sp, Scan(s, j), b.body);
  }

  /** The span the scanner records for a block framed at `i`. */
  function FramedSpan(s: string, i: nat, b: Block): (sp: Span)
    requires Framed(s, i, b)
    ensures InBounds(s, sp) && s[sp.body..sp.close] == b.body
  {
    Span(i, i + |Opening(b)|, i + |Opening(b)| + |b.body|)
  }

  lemma ScanFramedSpans(s: string, i: nat, b: Block, j: nat)
    requires Framed(s, i, b) && j == i + |Wrap(b)|
    ensures Scan(s, i) == [FramedSpan(s, i, b)] + Scan(s, j)
  {
    FramedMatch(s, i, b);
    ScanStep(s, i, FramedSpan(s, i, b), j);
  }

  lemma FramedMatch(s: string, i: nat, b: Block)
    requires Framed(s, i, b)
    ensures MatchAt(s, i) == Some(FramedSpan(s, i, b))
  {
  }

  lemma WrappedBody(s: string, i: nat, b: Block)
    requires i + |Wrap(b)| <= |s| && s[i..i + |Wrap(b)|] == Wrap(b)
    ensures s[i + |Opening(b)|..i + |Opening(b)| + |b.body|] == b.body
  {
    WrappedChars(s, i, b);
  }

  lemma TextsConsBody(s: string, sp: Span, m: seq<Span>, body: string)
    requires sp.body <= sp.close <= |s| && s[sp.body..sp.close] == body
    requires forall k :: 0 <= k < |m| ==> m[k].body <= m[k].close <= |s|
    ensures Texts(s, [sp] + m) == [body] + Texts(s, m)
  {
    TextsCons(s, sp, m);
  }

  lemma TextsCons(s: string, sp: Span, m: seq<Span>)
    requires sp.body <= sp.close <= |s|
    requires forall k :: 0 <= k < |m| ==> m[k].body <= m[k].close <= |s|
    ensures Texts(s, [sp] + m) == [s[sp.body..sp.close]] + Texts(s, m)
  {
    assert ([sp] + m)[1..] == m;
  }

  /** Scanning a run of well-formed blocks yields their bodies, in order,
      and leaves the scan just past the last closing fence. */
  lemma {:induction false} ScanJoin(s: string, i: nat, bs: seq<Block>, e: nat)
    requires Laid(s, i, bs) && e == i + |Join(bs)|
    ensures ExtractFrom(s, i) == Bodies(bs) + ExtractFrom(s, e)
    decreases |bs|
  {
    if bs != [] {
      var j := i + |Wrap(bs[0])|;
      assert e == j + |Join(bs[1..])|;
      LaidTail(s, i, bs, j);
      ScanFramed(s, i, bs[0], j);
      ScanJoin(s, j, bs[1..], e);
      ChainBodies(bs, ExtractFrom(s, i), ExtractFrom(s, j), ExtractFrom(s, e));
    } else {
      assert e == i && Bodies(bs) == [];
      assert Bodies(bs) + ExtractFrom(s, i) == ExtractFrom(s, i);
    }
  }

  /** The blocks of `bs` stand one after the other from index `i` on, as
      the scanner sees them. */
  predicate Laid(s: string, i: nat, bs: seq<Block>)
    decreases |bs|
  {
    bs == [] || (Framed(s, i, bs[0]) && Laid(s, i + |Wrap(bs[0])|, bs[1..]))
  }

  lemma {:induction false} JoinIsLaid(s: string, i: nat, bs: seq<Block>)
    requires AllWellFormed(bs)
    requires i + |Join(bs)| <= |s| && s[i..i + |Join(bs)|] == Join(bs)
    ensures Laid(s, i, bs)
    decreases |bs|
  {
    if bs != [] {
      var j := i + |Wrap(bs[0])|;
      JoinUnfold(bs);
      SplitOccurrence(s, i, Wrap(bs[0]), Join(bs[1..]), j);
      AllWellFormedTail(bs);
      FramedWrapped(s, i, bs[0]);
      JoinIsLaid(s, j, bs[1..]);
      LaidCons(s, i, bs, j);
    }
  }

  lemma JoinUnfold(bs: seq<Block>)
    requires bs != []
    ensures Join(bs) == Wrap(bs[0]) + Join(bs[1..])
  {
  }

  lemma LaidTail(s: string, i: nat, bs: seq<Block>, j: nat)
    requires bs != [] && Laid(s, i, bs) && j == i + |Wrap(bs[0])|
    ensures Framed(s, i, bs[0]) && Laid(s, j, bs[1..])
  {
  }

  lemma LaidCons(s: string, i: nat, bs: seq<Block>, j: nat)
    requires bs != [] && Framed(s, i, bs[0]) && j == i + |Wrap(bs[0])| && Laid(s, j, bs[1..])
    ensures Laid(s, i, bs)
  {
  }

  lemma ChainBodies(bs: seq<Block>, e0: seq<string>, e1: seq<string>, e2: seq<string>)
    requires bs != []
    requires e0 == [bs[0].body] + e1
    requires e1 == Bodies(bs[1..]) + e2
    ensures e0 == Bodies(bs) + e2
  {
    assert Bodies(bs) == [bs[0].body] + Bodies(bs[1..]);
  }

  /** Where `a + b` is written at index `i`, `a` is written at `i` and `b` right after it. */
  lemma SplitOccurrence(s: string, i: nat, a: string, b: string, j: nat)
    requires i + |a + b| <= |s| && s[i..i + |a + b|] == a + b && j == i + |a|
    ensures s[i..j] == a && j + |b| <= |s| && s[j..j + |b|] == b
  {
    assert s[i..j] == (a + b)[..|a|];
    assert s[j..j + |b|] == (a + b)[|a|..];
  }

  /** The bodies extracted from index `i` on. */
  function ExtractFrom(s: string, i: nat): seq<string>
  {
    Texts(s, Scan(s, i))
  }

  /** Text without backticks before the first fence is skipped by the scan. */
  lemma {:induction false} SkipPlain(s: string, i: nat, j: nat)
    requires i <= j <= |s|
    requires forall k :: i <= k < j ==> s[k] != '`'
    ensures Scan(s, i) == Scan(s, j)
    decreases j - i
  {
    if i < j {
      assert !FenceAt(s, i);
      ScanSkip(s, i);
      SkipPlain(s, i + 1, j);
    }
  }

  /** Round trip: a well-formed body, fenced with or without the `python`
      tag, is extracted as exactly that body. */
  lemma RoundTrip(b: Block)
    requires WellFormed(b)
    ensures ExtractCode(Wrap(b)) == [b.body]
  {
    assert Join([b]) == Wrap(b);
    assert AllWellFormed([b]);
    JoinIsLaid(Wrap(b), 0, [b]);
    ScanJoin(Wrap(b), 0, [b], |Wrap(b)|);
  }

  /** Concatenated fenced blocks are extracted as the list of their bodies. */
  lemma JoinRoundTrip(bs: seq<Block>)
    requires AllWellFormed(bs)
    ensures ExtractCode(Join(bs)) == Bodies(bs)
  {
    var s := Join(bs);
    assert s[0..|s|] == s;
    JoinIsLaid(s, 0, bs);
    ScanJoin(s, 0, bs, |s|);
    assert Scan(s, |s|) == [];
    assert Bodies(bs) + ExtractFrom(s, |s|) == Bodies(bs);
  }

  /** An unterminated trailing fence after well-formed blocks is ignored. */
  lemma JoinThenUnterminated(bs: seq<Block>, tail: string)
    requires AllWellFormed(bs)
    requires !HasFence(tail)
    ensures ExtractCode(Join(bs) + "```\n" + tail) == Bodies(bs)
  {
    var j := Join(bs);
    var s := j + "```\n" + tail;
    assert ExtractFrom(s, 0) == Bodies(bs) + ExtractFrom(s, |j|) by {
      assert s[0..|j|] == j;
      assert s == j + ("```\n" + tail);
      JoinIsLaid(s, 0, bs);
      ScanJoin(s, 0, bs, |j|);
    }
    assert ExtractFrom(s, |j|) == [] by {
      NothingAfterUnterminated(j, tail);
    }
    assert Bodies(bs) + ExtractFrom(s, |j|) == Bodies(bs);
  }

  lemma NothingAfterUnterminated(j: string, tail: string)
    requires !HasFence(tail)
    ensures ExtractFrom(j + "```\n" + tail, |j|) == []
  {
    NoFenceAfterOpening(j, tail);
    NoLaterFenceNoMatch(j + "```\n" + tail, |j|);
  }

  lemma NoFenceAfterOpening(j: string, tail: string)
    requires !HasFence(tail)
    ensures forall k :: |j| < k ==> !FenceAt(j + "```\n" + tail, k)
  {
    var s := j + "```\n" + tail;
    assert s[|j| + 3] == '\n';
    forall k | |j| + 4 <= k
      ensures !FenceAt(s, k)
    {
      assert !FenceAt(tail, k - |j| - 4);
      if k + 3 <= |s| {
        assert s[k] == tail[k - |j| - 4] && s[k + 1] == tail[k - |j| - 3] && s[k + 2] == tail[k - |j| - 2];
      }
    }
  }

  /** The empty fence yields one empty block rather than none. */
  lemma EmptyFenceYieldsEmptyBody()
    ensures ExtractCode("```\n```") == [""]
  {
    assert Wrap(Block("", false)) == "```\n```";
    RoundTrip(Block("", false));
  }
}
