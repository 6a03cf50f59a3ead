/**
 * Text operations the search route applies to queries and chunk contents:
 * JavaScript's notion of whitespace, `String.prototype.trim`, the printable-ASCII
 * sanitiser, `toLowerCase` and `split(/\s+/)`.
 */
module QueryText {
  import opened Sequences

  /**
   * JavaScript's whitespace: the code points matched by the regular-expression class `\s`
   * and removed by `trim` (WhiteSpace and LineTerminator of ECMA-262, section 12.2 and 12.3).
   */
  predicate IsJsWhitespace(c: char) {
    || c == '\t' || c == '\n' || c == '\U{000B}' || c == '\U{000C}' || c == '\r'
    || c == ' ' || c == '\U{00A0}' || c == '\U{1680}'
    || ('\U{2000}' <= c <= '\U{200A}')
    || c == '\U{2028}' || c == '\U{2029}' || c == '\U{202F}' || c == '\U{205F}'
    || c == '\U{3000}' || c == '\U{FEFF}'
  }

  predicate IsVisible(c: char) {
    !IsJsWhitespace(c)
  }

  /** A token: a string with no whitespace in it. */
  predicate IsToken(t: string) {
    forall i | 0 <= i < |t| :: !IsJsWhitespace(t[i])
  }

  // ---------------------------------------------------------------------------
  // Sanitising: `q.replace(/[^\x20-\x7E]/g, "")`

  /** The characters the sanitiser keeps: code points 0x20 to 0x7E. */
  predicate IsPrintableAscii(c: char) {
    ' ' <= c <= '~'
  }

  /**
   * Deletes every character outside printable ASCII. Deleting (not replacing)
   * closes up the kept characters, which keep their original order.
   */
  function Sanitize(q: string): (r: string)
    ensures |r| <= |q|
    ensures forall c | c in r :: IsPrintableAscii(c)
    ensures multiset(r) <= multiset(q)
    ensures forall c | c in q :: multiset(r)[c] == if IsPrintableAscii(c) then multiset(q)[c] else 0
  {
    FilterCounts(q, IsPrintableAscii);
    Filter(q, IsPrintableAscii)
  }

  /** Sanitising a concatenation sanitises each part: kept characters stay in order. */
  lemma SanitizeAppend(a: string, b: string)
    ensures Sanitize(a + b) == Sanitize(a) + Sanitize(b)
  {
    FilterAppend(a, b, IsPrintableAscii);
  }

  /** A single character is kept exactly when it is printable ASCII. */
  lemma SanitizeChar(c: char)
    ensures Sanitize([c]) == if IsPrintableAscii(c) then [c] else []
  {
    assert [c][1..] == [];
  }

  /** The sanitiser is idempotent. */
  lemma SanitizeIdempotent(q: string)
    ensures Sanitize(Sanitize(q)) == Sanitize(q)
  {
    FilterIdempotent(q, IsPrintableAscii);
  }

  /** The sanitiser changes a string exactly when it holds a character outside printable ASCII. */
  lemma SanitizeUnchangedIff(q: string)
    ensures Sanitize(q) == q <==> forall c | c in q :: IsPrintableAscii(c)
    ensures |Sanitize(q)| < |q| <==> exists c | c in q :: !IsPrintableAscii(c)
  {
    FilterKeepsAll(q, IsPrintableAscii);
  }

  // ---------------------------------------------------------------------------
  // Trimming: `String.prototype.trim`

  /** `r` is `s` after its leading whitespace: a suffix of `s` that does not start with whitespace, all of whose prefix is whitespace. */
  predicate LeadingWhitespaceDropped(s: string, r: string) {
    && |r| <= |s| && r == s[|s| - |r|..]
    && (r != [] ==> !IsJsWhitespace(r[0]))
    && (forall i | 0 <= i < |s| - |r| :: IsJsWhitespace(s[i]))
  }

  /** `r` is `s` before its trailing whitespace: a prefix of `s` that does not end with whitespace, all of whose suffix is whitespace. */
  predicate TrailingWhitespaceDropped(s: string, r: string) {
    && |r| <= |s| && r == s[..|r|]
    && (r != [] ==> !IsJsWhitespace(r[|r| - 1]))
    && (forall i | |r| <= i < |s| :: IsJsWhitespace(s[i]))
  }

  /** Drops leading whitespace. */
  function TrimStart(s: string): (r: string)
    ensures LeadingWhitespaceDropped(s, r)
    decreases |s|
  {
    if s != [] && IsJsWhitespace(s[0]) then TrimStart(s[1..]) else s
  }

  /** Drops trailing whitespace. */
  function TrimEnd(s: string): (r: string)
    ensures TrailingWhitespaceDropped(s, r)
    decreases |s|
  {
    if s != [] && IsJsWhitespace(s[|s| - 1]) then TrimEnd(s[..|s| - 1]) else s
  }

  /**
   * `r` is the infix of `s` that starts at `lead`, neither starts nor ends with
   * whitespace, and everything of `s` outside it is whitespace.
   */
  predicate TrimmedAt(s: string, lead: nat, r: string) {
    && lead + |r| <= |s|
    && r == s[lead..lead + |r|]
    && (r != [] ==> !IsJsWhitespace(r[0]) && !IsJsWhitespace(r[|r| - 1]))
    && (forall i | 0 <= i < lead :: IsJsWhitespace(s[i]))
    && (forall i | lead + |r| <= i < |s| :: IsJsWhitespace(s[i]))
  }

  /** `trim`: drops the leading and the trailing whitespace. */
  function Trim(s: string): string {
    TrimEnd(TrimStart(s))
  }

  /**
   * What `trim` keeps: the infix of `s` after its leading whitespace that neither starts
   * nor ends with whitespace; everything outside it is whitespace.
   */
  lemma TrimCuts(s: string)
    ensures TrimmedAt(s, |s| - |TrimStart(s)|, Trim(s))
  {
    var t := TrimStart(s);
    var r := TrimEnd(t);
    assert Trim(s) == r;
    TrimSlices(s, t, r);
  }

  /** Where the two halves of trimming cut `s`, given what each half promises. */
  lemma TrimSlices(s: string, t: string, r: string)
    requires LeadingWhitespaceDropped(s, t)
    requires TrailingWhitespaceDropped(t, r)
    ensures TrimmedAt(s, |s| - |t|, r)
  {
    var lead := |s| - |t|;
    if r != [] {
      assert r[0] == t[0];
    }
    forall i | lead + |r| <= i < |s|
      ensures IsJsWhitespace(s[i])
    {
      assert s[i] == t[i - lead];
    }
  }

  /** A string that neither starts nor ends with whitespace is its own trim. */
  lemma TrimOfVisibleEnds(s: string)
    requires s != [] ==> !IsJsWhitespace(s[0]) && !IsJsWhitespace(s[|s| - 1])
    ensures Trim(s) == s
  {
    assert TrimStart(s) == s;
    assert TrimEnd(s) == s;
  }

  /** Trimming yields the empty string exactly when the input is all whitespace. */
  lemma TrimEmptyIff(s: string)
    ensures Trim(s) == [] <==> forall i | 0 <= i < |s| :: IsJsWhitespace(s[i])
  {
    TrimCuts(s);
    if Trim(s) != [] {
      var lead := |s| - |TrimStart(s)|;
      assert s[lead] == Trim(s)[0];
    }
  }

  // ---------------------------------------------------------------------------
  // Lower-casing: `toLowerCase`

  /**
   * The lower-case mapping of one character: A-Z to a-z, and KELVIN SIGN (U+212A) to `k`,
   * the one character outside ASCII whose lower-case form is ASCII. Every other
   * character is left as it is.
   */
  function LowerChar(c: char): char {
    if 'A' <= c <= 'Z' then (c as int + 32) as char
    else if c == KelvinSign then 'k'
    else c
  }

  predicate IsUpperAscii(c: char) {
    'A' <= c <= 'Z'
  }

  /** KELVIN SIGN (U+212A), which lower-cases to the ASCII letter `k`. */
  const KelvinSign: char := '\U{212A}'

  /**
   * `toLowerCase`: an upper-case ASCII letter becomes the letter 32 code points above it,
   * KELVIN SIGN becomes `k`, and every other character stays as it is.
   */
  function ToLower(s: string): (r: string)
    ensures |r| == |s|
    ensures forall i | 0 <= i < |s| :: IsUpperAscii(s[i]) ==> r[i] as int == s[i] as int + 32
    ensures forall i | 0 <= i < |s| :: s[i] == KelvinSign ==> r[i] == 'k'
    ensures forall i | 0 <= i < |s| :: !IsUpperAscii(s[i]) && s[i] != KelvinSign ==> r[i] == s[i]
    ensures forall i | 0 <= i < |r| :: !IsUpperAscii(r[i])
    ensures forall i | 0 <= i < |r| :: IsJsWhitespace(r[i]) <==> IsJsWhitespace(s[i])
    ensures forall i | 0 <= i < |r| :: IsPrintableAscii(s[i]) ==> IsPrintableAscii(r[i])
  {
    seq(|s|, i requires 0 <= i < |s| => LowerChar(s[i]))
  }

  /** Lower-casing twice is lower-casing once. */
  lemma ToLowerIdempotent(s: string)
    ensures ToLower(ToLower(s)) == ToLower(s)
  {
    forall i | 0 <= i < |s|
      ensures ToLower(ToLower(s))[i] == ToLower(s)[i]
    {
      assert ToLower(s)[i] == LowerChar(s[i]);
    }
  }

  /** A string of lower-case letters and spaces is its own lower-case form. */
  lemma ToLowerOfLower(s: string)
    requires forall i | 0 <= i < |s| :: 'a' <= s[i] <= 'z' || s[i] == ' '
    ensures ToLower(s) == s
  {
    forall i | 0 <= i < |s|
      ensures ToLower(s)[i] == s[i]
    {
      assert LowerChar(s[i]) == s[i];
    }
  }

  /**
   * `a` and `b` spell the same text up to the case of ASCII letters: at every position the
   * characters are equal, or one is an upper-case ASCII letter and the other its lower-case form.
   */
  predicate SameUpToAsciiCase(a: string, b: string) {
    && |a| == |b|
    && forall i | 0 <= i < |a| ::
      || a[i] == b[i]
      || ('A' <= a[i] <= 'Z' && b[i] as int == a[i] as int + 32)
      || ('A' <= b[i] <= 'Z' && a[i] as int == b[i] as int + 32)
  }

  /** Lower-casing identifies texts that differ only in the case of ASCII letters: "Margin" and "margin" become one. */
  lemma ToLowerIgnoresAsciiCase(a: string, b: string)
    requires SameUpToAsciiCase(a, b)
    ensures ToLower(a) == ToLower(b)
  {
    forall i | 0 <= i < |a|
      ensures ToLower(a)[i] == ToLower(b)[i]
    {
      if a[i] != b[i] {
        if 'A' <= a[i] <= 'Z' {
          assert ToLower(b)[i] == b[i];
        } else {
          assert ToLower(a)[i] == a[i];
        }
      }
    }
  }

  /** Lower-casing a concatenation lower-cases each part. */
  lemma ToLowerAppend(a: string, b: string)
    ensures ToLower(a + b) == ToLower(a) + ToLower(b)
  {
    assert forall i | 0 <= i < |a + b| :: ToLower(a + b)[i] == (ToLower(a) + ToLower(b))[i];
  }

  // ---------------------------------------------------------------------------
  // Tokenising: `split(/\s+/)`

  /**
   * `s.split(/\s+/)`: the pieces between maximal runs of whitespace. There is always
   * at least one piece; leading or trailing whitespace, or an empty input, yields an
   * empty piece at that end.
   */
  function Split(s: string): (r: seq<string>)
    ensures |r| >= 1
    decreases |s|
  {
    if s == [] then [""]
    else
      var rest := Split(s[1..]);
      if !IsJsWhitespace(s[0]) then [[s[0]] + rest[0]] + rest[1..]
      else if |s| > 1 && IsJsWhitespace(s[1]) then rest
      else [""] + rest
  }

  /** Every piece is a token, and leading whitespace yields an empty first piece. */
  lemma {:induction false} SplitPieces(s: string)
    ensures forall t | t in Split(s) :: IsToken(t)
    ensures s != [] && IsJsWhitespace(s[0]) ==> Split(s)[0] == ""
    decreases |s|
  {
    if s != [] {
      SplitPieces(s[1..]);
      var rest := Split(s[1..]);
      assert forall t | t in rest[1..] :: t in rest;
      if !IsJsWhitespace(s[0]) {
        assert rest[0] in rest;
        assert IsToken([s[0]] + rest[0]);
      }
    }
  }

  /** Joins pieces with single spaces: the inverse of `Split` on well-formed token lists. */
  function JoinWithSpaces(ts: seq<string>): string
    requires |ts| >= 1
  {
    if |ts| == 1 then ts[0] else ts[0] + " " + JoinWithSpaces(ts[1..])
  }

  /** Concatenation of all pieces. */
  function Concat(ts: seq<string>): string {
    if ts == [] then [] else ts[0] + Concat(ts[1..])
  }

  /** Splitting loses only whitespace: the pieces, put together, are the visible characters of `s` in order. */
  lemma {:induction false} SplitKeepsVisible(s: string)
    ensures Concat(Split(s)) == Filter(s, IsVisible)
    decreases |s|
  {
    if s != [] {
      SplitKeepsVisible(s[1..]);
      SplitStep(s);
      assert Filter(s, IsVisible) == (if IsVisible(s[0]) then [s[0]] else []) + Filter(s[1..], IsVisible);
    }
  }

  /** One step of splitting: the first character joins the pieces exactly when it is visible. */
  lemma SplitStep(s: string)
    requires s != []
    ensures Concat(Split(s)) == (if IsVisible(s[0]) then [s[0]] else []) + Concat(Split(s[1..]))
  {
    var rest := Split(s[1..]);
    if !IsJsWhitespace(s[0]) {
      ConcatGrowFirst(s[0], rest);
    } else if !(|s| > 1 && IsJsWhitespace(s[1])) {
      ConcatCons("", rest);
    }
  }

  /** Putting a character in front of the first piece puts it in front of the concatenation. */
  lemma ConcatGrowFirst(c: char, ts: seq<string>)
    requires |ts| >= 1
    ensures Concat([[c] + ts[0]] + ts[1..]) == [c] + Concat(ts)
  {
    var h, tl := ts[0], ts[1..];
    assert [h] + tl == ts;
    ConcatCons(h, tl);
    ConcatCons([c] + h, tl);
    CharPrefix(c, h, Concat(tl));
  }

  lemma CharPrefix(c: char, a: string, b: string)
    ensures ([c] + a) + b == [c] + (a + b)
  {
  }

  lemma ConcatCons(t: string, ts: seq<string>)
    ensures Concat([t] + ts) == t + Concat(ts)
  {
    assert ([t] + ts)[1..] == ts;
  }

  /** A word of lower-case letters is a token that lower-cases and splits to itself. */
  lemma LowerWordSplit(t: string)
    requires forall i | 0 <= i < |t| :: 'a' <= t[i] <= 'z'
    ensures IsToken(t)
    ensures Split(ToLower(t)) == [t]
  {
    ToLowerOfLower(t);
    forall i | 0 <= i < |t|
      ensures !IsJsWhitespace(t[i])
    {
    }
    SplitToken(t);
  }

  /** A token splits into itself alone. */
  lemma {:induction false} SplitToken(t: string)
    requires IsToken(t)
    ensures Split(t) == [t]
    decreases |t|
  {
    if t != [] {
      SplitToken(t[1..]);
      assert [t[0]] + t[1..] == t;
    }
  }

  /** A token in front of `s` is glued to the first piece of `s`. */
  lemma {:induction false} SplitAfterToken(a: string, s: string)
    requires IsToken(a)
    ensures Split(a + s) == [a + Split(s)[0]] + Split(s)[1..]
    decreases |a|
  {
    var x := Split(s);
    if a == [] {
      assert a + s == s;
      assert a + x[0] == x[0];
      assert [x[0]] + x[1..] == x;
    } else {
      var c, b := a[0], a[1..];
      assert IsToken(b) by {
        forall i | 0 <= i < |b|
          ensures !IsJsWhitespace(b[i])
        {
          assert b[i] == a[i + 1];
        }
      }
      SplitAfterToken(b, s);
      var y := Split(b + s);
      assert y == [b + x[0]] + x[1..];
      assert (a + s)[0] == c && !IsJsWhitespace(c);
      assert (a + s)[1..] == b + s;
      assert Split(a + s) == [[c] + y[0]] + y[1..];
      assert y[0] == b + x[0] && y[1..] == x[1..];
      assert [c] + (b + x[0]) == a + x[0];
    }
  }

  /** A single space in front of a string that does not start with whitespace opens an empty piece. */
  lemma SplitAfterSpace(s: string)
    requires s == [] || !IsJsWhitespace(s[0])
    ensures Split([' '] + s) == [""] + Split(s)
  {
    assert ([' '] + s)[1..] == s;
  }

  /**
   * Round trip: splitting the space-joined tokens gives the tokens back, provided no
   * piece other than the first and the last is empty.
   */
  lemma {:induction false} SplitJoinRoundTrip(ts: seq<string>)
    requires |ts| >= 1
    requires forall t | t in ts :: IsToken(t)
    requires forall i | 0 < i < |ts| - 1 :: ts[i] != ""
    ensures Split(JoinWithSpaces(ts)) == ts
    decreases |ts|
  {
    if |ts| == 1 {
      SplitToken(ts[0]);
    } else {
      var rest := ts[1..];
      assert forall t | t in rest :: t in ts;
      assert forall i | 0 < i < |rest| - 1 :: rest[i] == ts[i + 1];
      SplitJoinRoundTrip(rest);
      assert IsToken(ts[0]) by {
        assert ts[0] in ts;
      }
      assert |rest| > 1 ==> rest[0] != "" by {
        if |rest| > 1 {
          assert rest[0] == ts[1];
        }
      }
      SplitJoinStep(ts[0], rest);
      assert ts == [ts[0]] + rest;
    }
  }

  /** The step of the round trip: a token joined in front of a list that splits back to itself. */
  lemma SplitJoinStep(t: string, rest: seq<string>)
    requires |rest| >= 1 && IsToken(t)
    requires |rest| > 1 ==> rest[0] != ""
    requires Split(JoinWithSpaces(rest)) == rest
    ensures Split(JoinWithSpaces([t] + rest)) == [t] + rest
  {
    var spaced := [' '] + JoinWithSpaces(rest);
    SplitAfterJoinSpace(rest);
    JoinCons(t, rest);
    SplitAfterToken(t, spaced);
    assert ([""] + rest)[0] == "" && ([""] + rest)[1..] == rest;
    assert t + "" == t;
  }

  /** A space in front of a joined list that splits back to itself opens an empty piece. */
  lemma SplitAfterJoinSpace(rest: seq<string>)
    requires |rest| >= 1
    requires |rest| > 1 ==> rest[0] != ""
    requires Split(JoinWithSpaces(rest)) == rest
    ensures Split([' '] + JoinWithSpaces(rest)) == [""] + rest
  {
    var tail := JoinWithSpaces(rest);
    if tail != [] {
      JoinStartsWithFirst(rest);
      SplitPieces(tail);
      assert rest[0] in Split(tail);
      if rest[0] != [] {
        assert tail[0] == rest[0][0];
      }
    }
    SplitAfterSpace(tail);
  }

  lemma JoinCons(t: string, rest: seq<string>)
    requires |rest| >= 1
    ensures JoinWithSpaces([t] + rest) == t + ([' '] + JoinWithSpaces(rest))
  {
    assert ([t] + rest)[1..] == rest;
  }

  /** A space-joined list starts with its first piece. */
  lemma {:induction false} JoinStartsWithFirst(ts: seq<string>)
    requires |ts| >= 1
    ensures ts[0] <= JoinWithSpaces(ts)
    ensures ts[0] == [] && |ts| > 1 ==> JoinWithSpaces(ts)[0] == ' '
  {
    if |ts| > 1 {
      assert JoinWithSpaces(ts) == ts[0] + (" " + JoinWithSpaces(ts[1..]));
    }
  }

  /** Trailing whitespace yields an empty last piece, after at least one other piece. */
  lemma {:induction false} SplitTrailingWhitespace(s: string)
    requires s != [] && IsJsWhitespace(s[|s| - 1])
    ensures |Split(s)| >= 2 && Split(s)[|Split(s)| - 1] == ""
    decreases |s|
  {
    if |s| == 1 {
      assert s[1..] == [];
    } else {
      var rest := s[1..];
      assert rest[|rest| - 1] == s[|s| - 1];
      SplitTrailingWhitespace(rest);
      SplitShapes(s);
      EmptyLastPieceKept(Split(s), Split(rest), [s[0]] + Split(rest)[0]);
    }
  }

  /** `Split(s)` is `Split(s[1..])` with its first piece extended, left alone, or preceded by `""`. */
  lemma SplitShapes(s: string)
    requires s != []
    ensures var rest := Split(s[1..]);
      || Split(s) == [[s[0]] + rest[0]] + rest[1..]
      || Split(s) == rest
      || Split(s) == [""] + rest
  {
  }

  /** Each of those shapes keeps an empty last piece after at least one other piece. */
  lemma EmptyLastPieceKept(ps: seq<string>, tail: seq<string>, first: string)
    requires |tail| >= 2 && tail[|tail| - 1] == ""
    requires ps == [first] + tail[1..] || ps == tail || ps == [""] + tail
    ensures |ps| >= 2 && ps[|ps| - 1] == ""
  {
  }

  /**
   * Replaces every maximal run of whitespace by one space: what `split(/\s+/)` treats as a
   * single separator, written as the single space it is equivalent to.
   */
  function CollapseRuns(s: string): (r: string)
    ensures |r| <= |s|
    ensures r == [] <==> s == []
    ensures s != [] ==> (IsJsWhitespace(r[0]) <==> IsJsWhitespace(s[0]))
    ensures forall i | 0 <= i < |r| :: IsJsWhitespace(r[i]) ==> r[i] == ' '
    ensures forall i | 0 <= i < |r| - 1 :: !(IsJsWhitespace(r[i]) && IsJsWhitespace(r[i + 1]))
    decreases |s|
  {
    if s == [] then []
    else
      var rest := CollapseRuns(s[1..]);
      if !IsJsWhitespace(s[0]) then [s[0]] + rest
      else if |s| > 1 && IsJsWhitespace(s[1]) then rest
      else [' '] + rest
  }

  /** Splitting sees only where the whitespace runs are: a run of any length and kind splits like one space. */
  lemma {:induction false} SplitCollapsedRuns(s: string)
    ensures Split(CollapseRuns(s)) == Split(s)
    decreases |s|
  {
    if s != [] {
      var c, rest := CollapseRuns(s), s[1..];
      SplitCollapsedRuns(rest);
      if !IsJsWhitespace(s[0]) {
        assert c[0] == s[0] && c[1..] == CollapseRuns(rest);
      } else if !(|s| > 1 && IsJsWhitespace(s[1])) {
        assert c[0] == ' ' && c[1..] == CollapseRuns(rest);
      }
    }
  }

  /** Round trip on every input: joining the pieces with single spaces gives the input with its whitespace runs collapsed. */
  lemma {:induction false} JoinSplitCollapses(s: string)
    ensures JoinWithSpaces(Split(s)) == CollapseRuns(s)
    decreases |s|
  {
    if s != [] {
      var rest := s[1..];
      var pieces := Split(rest);
      JoinSplitCollapses(rest);
      if !IsJsWhitespace(s[0]) {
        JoinGrowFirst(s[0], pieces);
      } else if !(|s| > 1 && IsJsWhitespace(s[1])) {
        JoinCons("", pieces);
      }
    }
  }

  /** Putting a character in front of the first piece puts it in front of the joined text. */
  lemma JoinGrowFirst(c: char, ts: seq<string>)
    requires |ts| >= 1
    ensures JoinWithSpaces([[c] + ts[0]] + ts[1..]) == [c] + JoinWithSpaces(ts)
  {
    var h, tl := ts[0], ts[1..];
    assert [h] + tl == ts;
    if tl == [] {
      assert [[c] + h] + tl == [[c] + h];
    } else {
      JoinCons([c] + h, tl);
      JoinCons(h, tl);
      CharPrefix(c, h, [' '] + JoinWithSpaces(tl));
    }
  }

  // ---------------------------------------------------------------------------
  // The query as the route cleans it: `sanitizeQuery(String(query).trim())`

  /** Trims first, then sanitises. */
  function CleanQuery(raw: string): (r: string)
    ensures forall c | c in r :: IsPrintableAscii(c)
    ensures forall c | c in r :: IsJsWhitespace(c) ==> c == ' '
    ensures |r| <= |raw|
  {
    Sanitize(Trim(raw))
  }

  /**
   * Because trimming comes before sanitising, deleting non-printable characters can
   * leave spaces at the ends: "é é" (U+00E9, space, U+00E9) is cleaned to a lone space.
   */
  lemma CleanQueryCanKeepSpaces()
    ensures CleanQuery("\U{00E9} \U{00E9}") == " "
  {
    var s := "\U{00E9} \U{00E9}";
    assert !IsJsWhitespace(s[0]) && !IsJsWhitespace(s[2]);
    assert TrimStart(s) == s;
    assert TrimEnd(s) == s;
    assert Trim(s) == s;
    assert Filter(s[2..], IsPrintableAscii) == [] by {
      assert s[2..][1..] == [];
    }
    assert Filter(s[1..], IsPrintableAscii) == " " by {
      assert s[1..][1..] == s[2..];
    }
  }

  /** When the trimmed text is already printable ASCII, no space is exposed at either end. */
  lemma CleanQueryOfPrintable(raw: string)
    requires forall c | c in Trim(raw) :: IsPrintableAscii(c)
    ensures CleanQuery(raw) == Trim(raw)
    ensures CleanQuery(raw) != [] ==> CleanQuery(raw)[0] != ' ' && CleanQuery(raw)[|CleanQuery(raw)| - 1] != ' '
  {
    TrimCuts(raw);
    SanitizeUnchangedIff(Trim(raw));
  }
}
