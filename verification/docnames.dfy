/** The naming helpers of the document generator: the filename sanitiser,
    the timestamped file name and the slide restructuring done before a
    presentation is rendered (backend/mcp-servers/docgeneration.py). */
module DocNames {
  import opened Common
  import opened Text

  /** The stem used when sanitising leaves nothing. */
  const DefaultStem: string := "document"

  /** The default `max_length` of the sanitiser. */
  const DefaultMaxLength: int := 50

  // ---------------------------------------------------------------------
  // Filename sanitiser
  // ---------------------------------------------------------------------

  /** A name made only of `\w` characters and hyphens. */
  predicate IsSafeName(s: string) {
    forall i :: 0 <= i < |s| ==> IsWordChar(s[i]) || s[i] == '-'
  }

  /** Characters that survive the `[^\w\s-]` deletion. */
  predicate IsKept(c: char) {
    IsWordChar(c) || IsSpace(c) || c == '-'
  }

  /** Step 1: every line feed and carriage return becomes a space. */
  function ReplaceLineBreaks(s: string): (r: string)
    ensures |r| == |s|
    ensures forall i :: 0 <= i < |s| ==> r[i] == (if s[i] == '\n' || s[i] == '\r' then ' ' else s[i])
  {
    if s == [] then []
    else [if s[0] == '\n' || s[0] == '\r' then ' ' else s[0]] + ReplaceLineBreaks(s[1..])
  }

  /** Step 2: delete every character outside `\w`, `\s` and `-`. A
      character is kept exactly when it is allowed, and a text of allowed
      characters is left as it is; FilterConcat gives the order. */
  function DropDisallowed(s: string): (r: string)
    ensures |r| <= |s|
    ensures forall i :: 0 <= i < |r| ==> IsKept(r[i])
    ensures forall c :: c in r <==> c in s && IsKept(c)
    ensures (forall i :: 0 <= i < |s| ==> IsKept(s[i])) ==> r == s
  {
    FilterKeeps(s);
    Filter(s, IsKept)
  }

  lemma FilterKeeps(s: string)
    ensures forall c :: c in Filter(s, IsKept) <==> c in s && IsKept(c)
    ensures (forall i :: 0 <= i < |s| ==> IsKept(s[i])) ==> Filter(s, IsKept) == s
  {
    forall c
      ensures c in Filter(s, IsKept) <==> c in s && IsKept(c)
    {
      FilterMembership(s, IsKept, c);
    }
    if forall i :: 0 <= i < |s| ==> IsKept(s[i]) {
      FilterAll(s, IsKept);
    }
  }

  predicate IsNonSpace(c: char) {
    !IsSpace(c)
  }

  /** A text made of white space only. */
  predicate AllSpace(a: string) {
    forall i :: 0 <= i < |a| ==> IsSpace(a[i])
  }

  /** The number of white-space characters `s` starts with. */
  function LeadingSpaces(s: string): (k: nat)
    ensures k <= |s|
    ensures forall i :: 0 <= i < k ==> IsSpace(s[i])
    ensures k == |s| || !IsSpace(s[k])
  {
    if s != [] && IsSpace(s[0]) then 1 + LeadingSpaces(s[1..]) else 0
  }

  /** The length of `s` without its trailing white space. */
  function ContentEnd(s: string): (k: nat)
    ensures k <= |s|
    ensures forall i :: k <= i < |s| ==> IsSpace(s[i])
    ensures k == 0 || !IsSpace(s[k - 1])
  {
    if s != [] && IsSpace(s[|s| - 1]) then ContentEnd(s[..|s| - 1]) else |s|
  }

  /** The suffix of `s` that starts at its first non-space character. */
  function DropLeadingSpace(s: string): string {
    s[LeadingSpaces(s)..]
  }

  /** The prefix of `s` that ends at its last non-space character. */
  function DropTrailingSpace(s: string): string {
    s[..ContentEnd(s)]
  }

  /** Both counts are determined by their contracts. */
  lemma LeadingUnique(x: string, k: nat)
    requires k <= |x| && forall i :: 0 <= i < k ==> IsSpace(x[i])
    requires k == |x| || !IsSpace(x[k])
    ensures LeadingSpaces(x) == k
  {
  }

  lemma ContentEndUnique(x: string, k: nat)
    requires k <= |x| && forall i :: k <= i < |x| ==> IsSpace(x[i])
    requires k == 0 || !IsSpace(x[k - 1])
    ensures ContentEnd(x) == k
  {
  }

  /** Step 3a: `re.sub(r'\s+', ' ', s)`. Each maximal run of white space
      becomes a single space: the result starts with a space exactly when
      `s` starts with white space, and CollapseNoAdjacentSpaces,
      CollapseKeepsNonSpace and CollapseWordFirst say what follows. */
  function CollapseSpace(s: string): (r: string)
    ensures r == [] <==> s == []
    ensures s != [] ==> (IsSpace(r[0]) <==> IsSpace(s[0])) && (!IsSpace(s[0]) ==> r[0] == s[0])
    decreases |s|
  {
    if s == [] then []
    else if IsSpace(s[0]) then " " + CollapseSpace(DropLeadingSpace(s[1..]))
    else [s[0]] + CollapseSpace(s[1..])
  }

  /** No two white-space characters side by side. */
  predicate NoAdjacentSpaces(r: string) {
    forall i :: 0 <= i < |r| - 1 ==> !(IsSpace(r[i]) && IsSpace(r[i + 1]))
  }

  /** No two white-space characters are adjacent after collapsing. */
  lemma {:induction false} CollapseNoAdjacentSpaces(s: string)
    ensures NoAdjacentSpaces(CollapseSpace(s))
    decreases |s|
  {
    if s != [] {
      var t := if IsSpace(s[0]) then DropLeadingSpace(s[1..]) else s[1..];
      CollapseNoAdjacentSpaces(t);
      var x := if IsSpace(s[0]) then ' ' else s[0];
      assert CollapseSpace(s) == [x] + CollapseSpace(t);
      ConsNoAdjacent(x, CollapseSpace(t));
    }
  }

  lemma ConsNoAdjacent(x: char, c: string)
    requires NoAdjacentSpaces(c)
    requires IsSpace(x) && c != [] ==> !IsSpace(c[0])
    ensures NoAdjacentSpaces([x] + c)
  {
    var r := [x] + c;
    forall i | 0 <= i < |r| - 1
      ensures !(IsSpace(r[i]) && IsSpace(r[i + 1]))
    {
      if i > 0 {
        assert r[i] == c[i - 1] && r[i + 1] == c[i];
      }
    }
  }

  /** Collapsing keeps every non-space character, in order. */
  lemma {:induction false} CollapseKeepsNonSpace(s: string)
    ensures Filter(CollapseSpace(s), IsNonSpace) == Filter(s, IsNonSpace)
    decreases |s|
  {
    if s != [] {
      if IsSpace(s[0]) {
        var u := DropLeadingSpace(s[1..]);
        CollapseKeepsNonSpace(u);
        SpacesThenFilter(s[1..], LeadingSpaces(s[1..]));
        FilterCons(' ', CollapseSpace(u), IsNonSpace);
      } else {
        CollapseKeepsNonSpace(s[1..]);
        FilterCons(s[0], CollapseSpace(s[1..]), IsNonSpace);
      }
    }
  }

  lemma FilterCons<T>(x: T, s: seq<T>, p: T -> bool)
    ensures Filter([x] + s, p) == (if p(x) then [x] else []) + Filter(s, p)
  {
    assert ([x] + s)[1..] == s;
  }

  /** Dropping a white-space prefix leaves the non-space characters alone. */
  lemma SpacesThenFilter(x: string, k: nat)
    requires k <= |x| && forall i :: 0 <= i < k ==> IsSpace(x[i])
    ensures Filter(x, IsNonSpace) == Filter(x[k..], IsNonSpace)
  {
    assert x == x[..k] + x[k..];
    FilterConcat(x[..k], x[k..], IsNonSpace);
    FilterNone(x[..k], IsNonSpace);
  }

  /** Step 3b: `s.strip()`: white space is removed from both ends.
      StripPadded says that this is all it removes. */
  function Strip(s: string): (r: string)
    ensures |r| <= |s|
    ensures r == [] || (!IsSpace(r[0]) && !IsSpace(r[|r| - 1]))
  {
    var a := DropLeadingSpace(s);
    assert a != [] ==> ContentEnd(a) > 0;
    DropTrailingSpace(a)
  }

  /** `strip` removes exactly the white space around a text that neither
      starts nor ends with white space; every text has this shape, so this
      determines `strip`. */
  lemma StripPadded(a: string, m: string, b: string)
    requires AllSpace(a) && AllSpace(b)
    requires m == [] || (!IsSpace(m[0]) && !IsSpace(m[|m| - 1]))
    ensures Strip(a + m + b) == m
  {
    var x := a + m + b;
    if m == [] {
      assert forall i :: 0 <= i < |x| ==> x[i] == (a + b)[i];
      LeadingUnique(x, |x|);
    } else {
      assert forall i :: 0 <= i < |a| ==> x[i] == a[i];
      assert x[|a|] == m[0];
      LeadingUnique(x, |a|);
      var y := m + b;
      assert x[|a|..] == y;
      assert forall i :: |m| <= i < |y| ==> y[i] == b[i - |m|];
      assert y[|m| - 1] == m[|m| - 1];
      ContentEndUnique(y, |m|);
      assert y[..|m|] == m;
    }
  }

  /** Step 4: every space becomes an underscore. */
  function SpacesToUnderscores(s: string): (r: string)
    ensures |r| == |s|
    ensures forall i :: 0 <= i < |s| ==> r[i] == (if s[i] == ' ' then '_' else s[i])
  {
    if s == [] then [] else [if s[0] == ' ' then '_' else s[0]] + SpacesToUnderscores(s[1..])
  }

  /** Python's `s[:n]`: a negative `n` counts from the end. */
  function PySlicePrefix(s: string, n: int): (r: string)
    ensures |r| <= |s| && r == s[..|r|]
    ensures n >= 0 ==> |r| == (if n < |s| then n else |s|)
    ensures n < 0 ==> |r| == (if |s| + n > 0 then |s| + n else 0)
  {
    if n >= 0 then (if n < |s| then s[..n] else s)
    else (if |s| + n > 0 then s[..|s| + n] else [])
  }

  /** Steps 1 to 4 of the sanitiser, before truncation: the words of the
      text, once line breaks are spaces and disallowed characters are gone,
      joined by underscores (lines 43-44 are `'_'.join(t.split())`). */
  function Clean(text: string): (r: string)
    ensures r == Join(Words(DropDisallowed(ReplaceLineBreaks(text))), "_")
    ensures IsSafeName(r)
  {
    var k := DropDisallowed(ReplaceLineBreaks(text));
    CollapseIsWords(k);
    UnderscoreJoin(Words(k));
    SafeWords(k);
    JoinSafe(Words(k));
    SpacesToUnderscores(Strip(CollapseSpace(k)))
  }

  /** A text without white space passes through the collapse unchanged. */
  lemma {:induction false} CollapseWord(w: string, rest: string)
    requires NoSpace(w)
    ensures CollapseSpace(w + rest) == w + CollapseSpace(rest)
    decreases |w|
  {
    var x := w + rest;
    if w == [] {
      assert x == rest;
    } else {
      assert x[0] == w[0] && !IsSpace(x[0]);
      assert x[1..] == w[1..] + rest;
      CollapseWord(w[1..], rest);
      calc {
        CollapseSpace(x);
        [w[0]] + CollapseSpace(w[1..] + rest);
        [w[0]] + (w[1..] + CollapseSpace(rest));
        { assert w == [w[0]] + w[1..]; }
        w + CollapseSpace(rest);
      }
    }
  }

  /** `split()` ignores leading white space. */
  lemma {:induction false} WordsSkipSpaces(x: string, k: nat)
    requires k <= |x| && forall i :: 0 <= i < k ==> IsSpace(x[i])
    ensures Words(x) == Words(x[k..])
    decreases k
  {
    if k > 0 {
      WordsSkipSpaces(x[1..], k - 1);
      assert x[1..][k - 1..] == x[k..];
    }
  }

  lemma JoinCons(w: string, ws: seq<string>, sep: string)
    requires ws != []
    ensures Join([w] + ws, sep) == w + sep + Join(ws, sep)
  {
    assert ([w] + ws)[1..] == ws;
  }

  /** One space when `s` ends with white space, nothing otherwise. */
  function Trail(s: string): string {
    if s != [] && IsSpace(s[|s| - 1]) then " " else ""
  }

  /** Collapsing a text that starts with a word gives its words separated by
      single spaces, plus one space when the text ends with white space. */
  lemma {:induction false} CollapseWordFirst(s: string)
    requires s == [] || !IsSpace(s[0])
    ensures CollapseSpace(s) == Join(Words(s), " ") + Trail(s)
    decreases |s|
  {
    if s != [] {
      var w, rest := SplitFirstWord(s);
      if rest == [] {
        LoneWord(s, w);
      } else {
        var u := SkipSpaceRun(rest);
        if u != [] {
          CollapseWordFirst(u);
          WordThenWords(s, w, rest, u);
        } else {
          WordThenSpace(s, w, rest);
        }
      }
    }
  }

  lemma Reassociate(a: string, b: string, c: string, d: string)
    ensures a + (b + (c + d)) == (a + b + c) + d
  {
  }

  /** Splits off the first word of a text that starts with one. */
  lemma SplitFirstWord(s: string) returns (w: string, rest: string)
    requires s != [] && !IsSpace(s[0])
    ensures s == w + rest && rest == s[|w|..]
    ensures CollapseSpace(s) == w + CollapseSpace(rest)
    ensures Words(s) == [w] + Words(rest)
    ensures rest == [] ==> Trail(s) == ""
    ensures rest != [] ==> Trail(s) == Trail(rest)
  {
    w := TakeWord(s);
    rest := s[|w|..];
    assert s == w + rest;
    CollapseWord(w, rest);
    TrailAfterWord(s, w, rest);
  }

  lemma TrailAfterWord(s: string, w: string, rest: string)
    requires s == w + rest && w != [] && NoSpace(w)
    ensures rest == [] ==> Trail(s) == ""
    ensures rest != [] ==> Trail(s) == Trail(rest)
  {
    if rest == [] {
      assert s[|s| - 1] == w[|w| - 1];
    } else {
      assert s[|s| - 1] == rest[|rest| - 1];
    }
  }

  lemma LoneWord(s: string, w: string)
    requires CollapseSpace(s) == w + CollapseSpace([])
    requires Words(s) == [w] + Words([])
    requires Trail(s) == ""
    ensures CollapseSpace(s) == Join(Words(s), " ") + Trail(s)
  {
    assert Words(s) == [w];
  }

  lemma WordThenSpace(s: string, w: string, rest: string)
    requires CollapseSpace(s) == w + CollapseSpace(rest)
    requires CollapseSpace(rest) == " " + CollapseSpace([])
    requires Words(s) == [w] + Words(rest) && Words(rest) == Words([])
    requires Trail(rest) == " " && Trail(s) == Trail(rest)
    ensures CollapseSpace(s) == Join(Words(s), " ") + Trail(s)
  {
    assert Words(s) == [w];
  }

  lemma WordThenWords(s: string, w: string, rest: string, u: string)
    requires u != [] && !IsSpace(u[0])
    requires CollapseSpace(s) == w + CollapseSpace(rest)
    requires CollapseSpace(rest) == " " + CollapseSpace(u)
    requires Words(s) == [w] + Words(rest) && Words(rest) == Words(u)
    requires Trail(s) == Trail(rest) && Trail(rest) == Trail(u)
    requires CollapseSpace(u) == Join(Words(u), " ") + Trail(u)
    ensures CollapseSpace(s) == Join(Words(s), " ") + Trail(s)
  {
    JoinCons(w, Words(u), " ");
    Reassociate(w, " ", Join(Words(u), " "), Trail(u));
  }

  /** A text that starts with white space collapses to a space and the
      collapse of what follows the run, and has the words of that rest. */
  lemma SkipSpaceRun(s: string) returns (u: string)
    requires s != [] && IsSpace(s[0])
    ensures u == DropLeadingSpace(s[1..])
    ensures |u| < |s| && u == s[|s| - |u|..]
    ensures CollapseSpace(s) == " " + CollapseSpace(u)
    ensures Words(s) == Words(u)
    ensures u == [] || !IsSpace(u[0])
    ensures u == [] ==> Trail(s) == " "
    ensures u != [] ==> Trail(s) == Trail(u)
  {
    var k := 1 + LeadingSpaces(s[1..]);
    u := DropLeadingSpace(s[1..]);
    assert u == s[k..];
    assert forall i :: 1 <= i < k ==> s[i] == s[1..][i - 1];
    WordsSkipSpaces(s, k);
  }

  /** Words joined by a space neither start nor end with white space. */
  lemma {:induction false} JoinWordsEdges(ws: seq<string>)
    requires forall i :: 0 <= i < |ws| ==> ws[i] != [] && NoSpace(ws[i])
    ensures var j := Join(ws, " ");
            && (j == [] <==> ws == [])
            && (j != [] ==> !IsSpace(j[0]) && !IsSpace(j[|j| - 1]))
    decreases |ws|
  {
    if |ws| > 1 {
      JoinWordsEdges(ws[1..]);
      var j := Join(ws[1..], " ");
      assert Join(ws, " ") == ws[0] + " " + j;
    }
  }

  /** `re.sub(r'\s+', ' ', s).strip()` is `' '.join(s.split())`. */
  lemma CollapseIsWords(s: string)
    ensures Strip(CollapseSpace(s)) == Join(Words(s), " ")
  {
    if s != [] && IsSpace(s[0]) {
      var u := SkipSpaceRun(s);
      WordFirstStrip(u, " ");
    } else {
      WordFirstStrip(s, "");
      assert [] + CollapseSpace(s) == CollapseSpace(s);
    }
  }

  lemma WordFirstStrip(u: string, lead: string)
    requires u == [] || !IsSpace(u[0])
    requires AllSpace(lead)
    ensures Strip(lead + CollapseSpace(u)) == Join(Words(u), " ")
  {
    CollapseWordFirst(u);
    JoinWordsEdges(Words(u));
    assert AllSpace(Trail(u));
    StripParts(lead, CollapseSpace(u), Join(Words(u), " "), Trail(u));
  }

  lemma StripParts(lead: string, c: string, m: string, tail: string)
    requires c == m + tail && AllSpace(lead) && AllSpace(tail)
    requires m == [] || (!IsSpace(m[0]) && !IsSpace(m[|m| - 1]))
    ensures Strip(lead + c) == m
  {
    assert lead + c == lead + m + tail;
    StripPadded(lead, m, tail);
  }

  lemma SpacesToUnderscoresConcat(a: string, b: string)
    ensures SpacesToUnderscores(a + b) == SpacesToUnderscores(a) + SpacesToUnderscores(b)
  {
    var l, r := SpacesToUnderscores(a + b), SpacesToUnderscores(a) + SpacesToUnderscores(b);
    assert forall i :: 0 <= i < |l| ==> l[i] == r[i];
  }

  /** Joining words with a space and then replacing the spaces is joining
      them with an underscore. */
  lemma {:induction false} UnderscoreJoin(ws: seq<string>)
    requires forall i :: 0 <= i < |ws| ==> ws[i] != [] && NoSpace(ws[i])
    ensures SpacesToUnderscores(Join(ws, " ")) == Join(ws, "_")
    decreases |ws|
  {
    if ws != [] {
      UnderscoresNoSpace(ws[0]);
      if |ws| > 1 {
        UnderscoreJoin(ws[1..]);
        SpacesToUnderscoresConcat(ws[0] + " ", Join(ws[1..], " "));
        SpacesToUnderscoresConcat(ws[0], " ");
      }
    }
  }

  /** Every character of a word occurs in the text it was split from. */
  lemma {:induction false} WordsFrom(s: string)
    ensures forall i, c :: 0 <= i < |Words(s)| && c in Words(s)[i] ==> c in s
    decreases |s|
  {
    if s != [] {
      if IsSpace(s[0]) {
        WordsFrom(s[1..]);
        assert forall c :: c in s[1..] ==> c in s;
      } else {
        var w := TakeWord(s);
        WordsFrom(s[|w|..]);
        assert Words(s) == [w] + Words(s[|w|..]);
        assert forall c :: c in w ==> c in s;
        assert forall c :: c in s[|w|..] ==> c in s;
      }
    }
  }

  /** The words of a text of allowed characters are safe names. */
  lemma SafeWords(s: string)
    requires forall c :: c in s ==> IsKept(c)
    ensures forall i :: 0 <= i < |Words(s)| ==> IsSafeName(Words(s)[i])
  {
    WordsFrom(s);
    forall i, j | 0 <= i < |Words(s)| && 0 <= j < |Words(s)[i]|
      ensures IsWordChar(Words(s)[i][j]) || Words(s)[i][j] == '-'
    {
      assert Words(s)[i][j] in Words(s)[i];
      assert NoSpace(Words(s)[i]);
      assert !IsSpace(Words(s)[i][j]) && IsKept(Words(s)[i][j]);
    }
  }

  /** Safe names joined by underscores form a safe name. */
  lemma {:induction false} JoinSafe(ws: seq<string>)
    requires forall i :: 0 <= i < |ws| ==> IsSafeName(ws[i])
    ensures IsSafeName(Join(ws, "_"))
    decreases |ws|
  {
    if |ws| > 1 {
      JoinSafe(ws[1..]);
      var j := ws[0] + "_" + Join(ws[1..], "_");
      assert forall i :: 0 <= i < |j| ==> j[i] == '_' || j[i] in ws[0] || j[i] in Join(ws[1..], "_");
    }
  }

  /** A safe name holds no white space. */
  lemma SafeNameNoSpace(s: string)
    requires IsSafeName(s)
    ensures NoSpace(s)
  {
  }

  /** `sanitize_filename(text, max_length)`: a file-system-safe, never-empty
      stem of at most `maxLength` characters (unless it is the default). */
  function SanitizeFilename(text: string, maxLength: int): (r: string)
    ensures |r| > 0
    ensures IsSafeName(r)
    ensures forall i :: 0 <= i < |r| ==> !IsSpace(r[i])
    ensures 0 <= maxLength ==> |r| <= maxLength || r == DefaultStem
    ensures |DefaultStem| <= maxLength ==> |r| <= maxLength
    ensures var t := PySlicePrefix(Join(Words(DropDisallowed(ReplaceLineBreaks(text))), "_"), maxLength);
            r == if t == [] then DefaultStem else t
  {
    var c := Clean(text);
    var t := PySlicePrefix(c, maxLength);
    PrefixOfSafeName(c, t);
    DefaultStemIsSafe();
    var r := if t == [] then DefaultStem else t;
    SafeNameNoSpace(r);
    r
  }

  lemma PrefixOfSafeName(c: string, t: string)
    requires IsSafeName(c)
    requires |t| <= |c| && t == c[..|t|]
    ensures IsSafeName(t)
  {
    assert forall i :: 0 <= i < |t| ==> t[i] == c[i];
  }

  lemma DefaultStemIsSafe()
    ensures IsSafeName(DefaultStem) && |DefaultStem| == 8
  {
  }

  /** A safe name passes through steps 1 to 4 unchanged. */
  lemma CleanFixesSafeNames(s: string)
    requires IsSafeName(s)
    ensures Clean(s) == s
  {
    EarlyStepsFixSafeNames(s);
    LateStepsFixSafeNames(s);
  }

  /** Steps 1 to 3a leave a safe name alone. */
  lemma EarlyStepsFixSafeNames(s: string)
    requires IsSafeName(s)
    ensures ReplaceLineBreaks(s) == s && DropDisallowed(s) == s && CollapseSpace(s) == s
  {
    ReplaceLineBreaksNoBreaks(s);
    FilterAll(s, IsKept);
    CollapseNoSpace(s);
  }

  /** Steps 3b and 4 leave a safe name alone. */
  lemma LateStepsFixSafeNames(s: string)
    requires IsSafeName(s)
    ensures Strip(s) == s && SpacesToUnderscores(s) == s
  {
    assert s == [] || (!IsSpace(s[0]) && !IsSpace(s[|s| - 1]));
    DropLeadingNoSpace(s);
    DropTrailingNoSpace(s);
    UnderscoresNoSpace(s);
  }

  lemma ReplaceLineBreaksNoBreaks(s: string)
    requires IsSafeName(s)
    ensures ReplaceLineBreaks(s) == s
  {
  }

  lemma {:induction false} CollapseNoSpace(s: string)
    requires IsSafeName(s)
    ensures CollapseSpace(s) == s
    decreases |s|
  {
    if s != [] {
      assert !IsSpace(s[0]) && IsSafeName(s[1..]);
      CollapseNoSpace(s[1..]);
      assert [s[0]] + s[1..] == s;
    }
  }

  lemma DropLeadingNoSpace(s: string)
    requires s == [] || !IsSpace(s[0])
    ensures DropLeadingSpace(s) == s
  {
  }

  lemma DropTrailingNoSpace(s: string)
    requires s == [] || !IsSpace(s[|s| - 1])
    ensures DropTrailingSpace(s) == s
  {
  }

  lemma UnderscoresNoSpace(s: string)
    requires NoSpace(s)
    ensures SpacesToUnderscores(s) == s
  {
  }

  /** Sanitising is idempotent once the limit leaves room for the default
      stem: a sanitised name is its own sanitisation. */
  lemma SanitizeIdempotent(text: string, maxLength: int)
    requires |DefaultStem| <= maxLength
    ensures SanitizeFilename(SanitizeFilename(text, maxLength), maxLength) == SanitizeFilename(text, maxLength)
  {
    var r := SanitizeFilename(text, maxLength);
    CleanFixesSafeNames(r);
  }

  /** A string whose only white space is isolated spaces is unchanged by
      collapsing. */
  lemma {:induction false} CollapseSingleSpaces(s: string)
    requires forall i :: 0 <= i < |s| && IsSpace(s[i]) ==> s[i] == ' '
    requires forall i :: 0 <= i < |s| - 1 ==> !(IsSpace(s[i]) && IsSpace(s[i + 1]))
    ensures CollapseSpace(s) == s
    decreases |s|
  {
    if s != [] {
      CollapseSingleSpaces(s[1..]);
      if IsSpace(s[0]) {
        assert s[1..] == [] || !IsSpace(s[1]);
        assert DropLeadingSpace(s[1..]) == s[1..];
      }
      assert [s[0]] + s[1..] == s;
    }
  }

  lemma ReplaceLineBreaksConcat(a: string, b: string)
    ensures ReplaceLineBreaks(a + b) == ReplaceLineBreaks(a) + ReplaceLineBreaks(b)
  {
    var l, r := ReplaceLineBreaks(a + b), ReplaceLineBreaks(a) + ReplaceLineBreaks(b);
    forall i | 0 <= i < |l|
      ensures l[i] == r[i]
    {
      if i < |a| {
        assert (a + b)[i] == a[i];
      } else {
        assert (a + b)[i] == b[i - |a|];
      }
    }
  }

  /** A character the sanitiser deletes can be inserted anywhere without
      changing the name: texts that differ only in punctuation share a stem. */
  lemma SanitizeIgnoresPunctuation(a: string, p: char, b: string, maxLength: int)
    requires !IsKept(p)
    ensures SanitizeFilename(a + [p] + b, maxLength) == SanitizeFilename(a + b, maxLength)
  {
    KeptIgnoresPunctuation(a, p, b);
    assert Clean(a + [p] + b) == Clean(a + b);
  }

  /** In particular, a trailing deleted character changes nothing. */
  lemma SanitizeIgnoresTrailing(a: string, p: char, maxLength: int)
    requires !IsKept(p)
    ensures SanitizeFilename(a + [p], maxLength) == SanitizeFilename(a, maxLength)
  {
    SanitizeIgnoresPunctuation(a, p, [], maxLength);
    assert a + [p] + [] == a + [p];
    assert a + [] == a;
  }

  lemma KeptIgnoresPunctuation(a: string, p: char, b: string)
    requires !IsKept(p)
    ensures DropDisallowed(ReplaceLineBreaks(a + [p] + b)) == DropDisallowed(ReplaceLineBreaks(a + b))
  {
    LineBreaksAround(a, p, b);
    FilterDropsOne(ReplaceLineBreaks(a), p, ReplaceLineBreaks(b));
  }

  lemma LineBreaksAround(a: string, p: char, b: string)
    requires p != '\n' && p != '\r'
    ensures ReplaceLineBreaks(a + [p] + b) == ReplaceLineBreaks(a) + [p] + ReplaceLineBreaks(b)
    ensures ReplaceLineBreaks(a + b) == ReplaceLineBreaks(a) + ReplaceLineBreaks(b)
  {
    ReplaceLineBreaksConcat(a + [p], b);
    ReplaceLineBreaksConcat(a, [p]);
    ReplaceLineBreaksConcat(a, b);
  }

  lemma FilterDropsOne(x: string, p: char, y: string)
    requires !IsKept(p)
    ensures Filter(x + [p] + y, IsKept) == Filter(x + y, IsKept)
  {
    FilterConcat(x + [p], y, IsKept);
    FilterConcat(x, [p], IsKept);
    FilterConcat(x, y, IsKept);
    FilterNone([p], IsKept);
  }

  /** Text with no word character, space or hyphen falls back to the default. */
  lemma {:induction false} SanitizeFallsBack(text: string, maxLength: int)
    requires forall i :: 0 <= i < |text| ==> !IsKept(text[i]) && text[i] != '\n' && text[i] != '\r'
    ensures SanitizeFilename(text, maxLength) == DefaultStem
  {
    var t := ReplaceLineBreaks(text);
    assert t == text;
    FilterNone(t, IsKept);
  }

  // ---------------------------------------------------------------------
  // Timestamped file names
  // ---------------------------------------------------------------------

  /** A reading of the UTC clock at second precision. */
  datatype Timestamp = Timestamp(year: int, month: int, day: int, hour: int, minute: int, second: int)

  predicate IsLeapYear(y: int) {
    (y % 4 == 0 && y % 100 != 0) || y % 400 == 0
  }

  function DaysInMonth(y: int, m: int): int
    requires 1 <= m <= 12
  {
    if m == 2 then (if IsLeapYear(y) then 29 else 28)
    else if m == 4 || m == 6 || m == 9 || m == 11 then 30
    else 31
  }

  /** A calendar-correct clock reading with a four-digit year. */
  predicate ValidTimestamp(t: Timestamp) {
    && 1000 <= t.year <= 9999
    && 1 <= t.month <= 12
    && 1 <= t.day <= DaysInMonth(t.year, t.month)
    && 0 <= t.hour < 24
    && 0 <= t.minute < 60
    && 0 <= t.second < 60
  }

  /** `strftime("%Y%m%d%H%M%S")`. */
  function FormatTimestamp(t: Timestamp): (r: string)
    requires ValidTimestamp(t)
    ensures |r| == 14
    ensures forall i :: 0 <= i < |r| ==> IsDigit(r[i])
  {
    PadDigits(t.year, 4) + PadDigits(t.month, 2) + PadDigits(t.day, 2)
    + PadDigits(t.hour, 2) + PadDigits(t.minute, 2) + PadDigits(t.second, 2)
  }

  /** Reads a `YYYYMMDDHHMMSS` string back into a clock reading. */
  function ParseTimestamp(s: string): (r: Option<Timestamp>)
    ensures r.Some? ==> ValidTimestamp(r.value)
  {
    if |s| != 14 || !(forall i :: 0 <= i < 14 ==> IsDigit(s[i])) then None
    else
      var t := Timestamp(ParseDigits(s[0..4]), ParseDigits(s[4..6]), ParseDigits(s[6..8]),
                         ParseDigits(s[8..10]), ParseDigits(s[10..12]), ParseDigits(s[12..14]));
      if ValidTimestamp(t) then Some(t) else None
  }

  /** Formatting loses nothing: the 14 digits determine the clock reading. */
  lemma ParseFormatTimestamp(t: Timestamp)
    requires ValidTimestamp(t)
    ensures ParseTimestamp(FormatTimestamp(t)) == Some(t)
  {
    var s := FormatTimestamp(t);
    var a, b, c := PadDigits(t.year, 4), PadDigits(t.month, 2), PadDigits(t.day, 2);
    var d, e, f := PadDigits(t.hour, 2), PadDigits(t.minute, 2), PadDigits(t.second, 2);
    assert s == a + b + c + d + e + f;
    assert s[0..4] == PadDigits(t.year, 4);
    assert s[4..6] == PadDigits(t.month, 2);
    assert s[6..8] == PadDigits(t.day, 2);
    assert s[8..10] == PadDigits(t.hour, 2);
    assert s[10..12] == PadDigits(t.minute, 2);
    assert s[12..14] == PadDigits(t.second, 2);
    ParsePadDigits(t.year, 4);
    ParsePadDigits(t.month, 2);
    ParsePadDigits(t.day, 2);
    ParsePadDigits(t.hour, 2);
    ParsePadDigits(t.minute, 2);
    ParsePadDigits(t.second, 2);
  }

  /** `generate_timestamped_filename(base, ext)` with the clock reading
      passed in: the base, an underscore, fourteen digits, a dot and the
      extension. */
  function TimestampedFilename(base: string, ext: string, now: Timestamp): (r: string)
    requires ValidTimestamp(now)
    ensures |r| == |base| + 16 + |ext|
    ensures r[..|base|] == base && r[|base|] == '_'
    ensures forall i :: |base| + 1 <= i < |base| + 15 ==> IsDigit(r[i])
    ensures r[|base| + 15] == '.' && r[|base| + 16..] == ext
  {
    var r := base + "_" + FormatTimestamp(now) + "." + ext;
    assert r[|base| + 1..|base| + 15] == FormatTimestamp(now);
    r
  }

  /** The digits of a timestamped name read back as the clock reading it
      was made with. */
  lemma TimestampedFilenameParses(base: string, ext: string, now: Timestamp)
    requires ValidTimestamp(now)
    ensures var r := TimestampedFilename(base, ext, now);
            ParseTimestamp(r[|base| + 1..|base| + 15]) == Some(now)
  {
    var r := TimestampedFilename(base, ext, now);
    assert r[|base| + 1..|base| + 15] == FormatTimestamp(now);
    ParseFormatTimestamp(now);
  }

  // ---------------------------------------------------------------------
  // Slides
  // ---------------------------------------------------------------------

  /** One requested slide: a layout index of the template and its texts. */
  datatype Slide = Slide(layout: int, placeholders: seq<string>)

  /** `combine_placeholders` on one slide: the title, then every further
      placeholder joined by line feeds (omitted when that join is empty). */
  function CombineSlide(s: Slide): (r: Slide)
    ensures r.layout == s.layout
    ensures 1 <= |r.placeholders| <= 2
    ensures r.placeholders[0] == (if s.placeholders == [] then "" else s.placeholders[0])
    ensures |s.placeholders| <= 1 ==> |r.placeholders| == 1
  {
    var title := if s.placeholders != [] then s.placeholders[0] else "";
    var content := if |s.placeholders| > 1 then Join(s.placeholders[1..], "\n") else "";
    Slide(s.layout, if content != "" then [title, content] else [title])
  }

  /** `combine_placeholders(slides)`: one combined slide per input slide, in
      order, each keeping its layout. */
  function CombinePlaceholders(slides: seq<Slide>): (r: seq<Slide>)
    ensures |r| == |slides|
    ensures forall i :: 0 <= i < |r| ==> r[i].layout == slides[i].layout
    ensures forall i :: 0 <= i < |r| ==> r[i] == CombineSlide(slides[i])
  {
    seq(|slides|, i requires 0 <= i < |slides| => CombineSlide(slides[i]))
  }

  /** Combining loses nothing when the texts hold no line feed: the title is
      the first text, and splitting the second entry (or the empty string
      when it was dropped) on line feeds gives back all the others. */
  lemma CombineSlideLossless(s: Slide)
    requires |s.placeholders| >= 2
    requires forall i :: 0 <= i < |s.placeholders| ==> '\n' !in s.placeholders[i]
    ensures var c := CombineSlide(s).placeholders;
            c[0] == s.placeholders[0]
            && Split(if |c| == 2 then c[1] else "", '\n') == s.placeholders[1..]
  {
    SplitJoin(s.placeholders[1..], '\n');
  }

  /** The text the presentation fingerprint is computed from:
      `" ".join(" ".join(s.placeholders) for s in slides)`. */
  function JoinedText(slides: seq<Slide>): string {
    Join(SlideTexts(slides), " ")
  }

  function SlideTexts(slides: seq<Slide>): (r: seq<string>)
    ensures |r| == |slides|
    ensures forall i :: 0 <= i < |r| ==> r[i] == Join(slides[i].placeholders, " ")
  {
    if slides == [] then [] else [Join(slides[0].placeholders, " ")] + SlideTexts(slides[1..])
  }

  /** Two slide lists with the same texts, slide by slide, have the same
      fingerprint text whatever their layouts. */
  lemma JoinedTextIgnoresLayout(a: seq<Slide>, b: seq<Slide>)
    requires |a| == |b|
    requires forall i :: 0 <= i < |a| ==> a[i].placeholders == b[i].placeholders
    ensures JoinedText(a) == JoinedText(b)
  {
    assert SlideTexts(a) == SlideTexts(b);
  }
}
