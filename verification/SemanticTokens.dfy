/**
 Semantic tokens: lexer tokens are split into lines, tokens from the analysis are laid over them, and the
 sorted list is sent as differences.  A text is a sequence of bytes.
 */
module SemanticTokens {
  import opened Wrappers
  import P = Positions

  // ----- lines -----

  /** The offset at which every line starts. */
  function Starts(text: string): (r: seq<nat>)
    ensures |r| >= 1
  {
    if text == "" then [0]
    else Starts(text[..|text| - 1]) + if text[|text| - 1] == '\n' then [|text|] else []
  }

  predicate Rising(starts: seq<nat>) {
    |starts| >= 1 && starts[0] == 0 && forall i, j :: 0 <= i < j < |starts| ==> starts[i] < starts[j]
  }

  /** Every later line starts just after a line feed. */
  predicate AfterFeeds(text: string, starts: seq<nat>) {
    forall i :: 0 < i < |starts| ==> 0 < starts[i] <= |text| && text[starts[i] - 1] == '\n'
  }

  /** Every line feed is followed by the start of a line. */
  predicate AllFeeds(text: string, starts: seq<nat>) {
    forall b :: 0 <= b < |text| && text[b] == '\n' ==> exists i :: 0 < i < |starts| && starts[i] == b + 1
  }

  predicate AreStarts(text: string, starts: seq<nat>) {
    Rising(starts) && AfterFeeds(text, starts) && AllFeeds(text, starts)
  }

  lemma {:induction false} StartsAre(text: string)
    ensures AreStarts(text, Starts(text)) && forall i :: 0 <= i < |Starts(text)| ==> Starts(text)[i] <= |text|
  {
    if text != "" {
      StartsAre(text[..|text| - 1]);
      hide Starts;
      OneMoreByte(text, Starts(text[..|text| - 1]), Starts(text)) by {
        StartsStep(text);
      }
    }
  }

  lemma StartsStep(text: string)
    requires text != ""
    ensures Starts(text) == Starts(text[..|text| - 1]) + if text[|text| - 1] == '\n' then [|text|] else []
  {
  }

  lemma OneMoreByte(text: string, before: seq<nat>, after: seq<nat>)
    requires text != "" && AreStarts(text[..|text| - 1], before) && forall i :: 0 <= i < |before| ==> before[i] < |text|
    requires after == before + if text[|text| - 1] == '\n' then [|text|] else []
    ensures AreStarts(text, after) && forall i :: 0 <= i < |after| ==> after[i] <= |text|
  {
    hide Rising, AfterFeeds, AllFeeds;
    MoreRising(before, |text|);
    MoreAfter(text, before, after);
    MoreFeeds(text, before, after);
  }

  lemma MoreRising(before: seq<nat>, n: nat)
    requires Rising(before) && forall i :: 0 <= i < |before| ==> before[i] < n
    ensures Rising(before + [n]) && Rising(before + [])
  {
    assert before + [] == before;
  }

  lemma MoreAfter(text: string, before: seq<nat>, after: seq<nat>)
    requires text != "" && AfterFeeds(text[..|text| - 1], before)
    requires after == before + if text[|text| - 1] == '\n' then [|text|] else []
    ensures AfterFeeds(text, after)
  {
    forall i | 0 < i < |after| ensures 0 < after[i] <= |text| && text[after[i] - 1] == '\n' {
      if i < |before| {
        assert text[..|text| - 1][before[i] - 1] == '\n';
      }
    }
  }

  lemma MoreFeeds(text: string, before: seq<nat>, after: seq<nat>)
    requires text != "" && AllFeeds(text[..|text| - 1], before) && |before| >= 1
    requires after == before + if text[|text| - 1] == '\n' then [|text|] else []
    ensures AllFeeds(text, after)
  {
    forall b | 0 <= b < |text| && text[b] == '\n' ensures exists i :: 0 < i < |after| && after[i] == b + 1 {
      if b < |text| - 1 {
        assert text[..|text| - 1][b] == '\n';
        var i :| 0 < i < |before| && before[i] == b + 1;
        assert after[i] == b + 1;
      } else {
        assert after[|before|] == b + 1;
      }
    }
  }

  method LineStarts(text: string) returns (starts: seq<nat>)
    ensures starts == Starts(text) && AreStarts(text, starts)
  {
    starts := [0];
    for index := 0 to |text|
      invariant starts == Starts(text[..index])
    {
      assert text[..index + 1][..index] == text[..index];
      if text[index] == '\n' {
        starts := starts + [index + 1];
      }
    }
    assert text[..|text|] == text;
    StartsAre(text);
  }

  /** The last line that starts at or before the offset. */
  predicate IsLineOf(starts: seq<nat>, offset: nat, line: nat) {
    line < |starts| && starts[line] <= offset && (line + 1 < |starts| ==> offset < starts[line + 1])
  }

  function LineAt(starts: seq<nat>, offset: nat): (line: nat)
    requires Rising(starts)
    ensures IsLineOf(starts, offset, line)
  {
    LineFrom(starts, offset, 0)
  }

  function LineFrom(starts: seq<nat>, offset: nat, line: nat): (r: nat)
    requires Rising(starts) && line < |starts| && starts[line] <= offset
    ensures IsLineOf(starts, offset, r)
    decreases |starts| - line
  {
    if line + 1 < |starts| && starts[line + 1] <= offset then LineFrom(starts, offset, line + 1) else line
  }

  lemma LineUnique(starts: seq<nat>, offset: nat, l: nat, m: nat)
    requires Rising(starts) && IsLineOf(starts, offset, l) && IsLineOf(starts, offset, m)
    ensures l == m
  {
    if l < m {
      Climb(starts, l + 1, m);
    } else if m < l {
      Climb(starts, m + 1, l);
    }
  }

  lemma Climb(starts: seq<nat>, i: nat, j: nat)
    requires Rising(starts) && i <= j < |starts|
    ensures starts[i] <= starts[j]
  {
  }

  method OffsetToLineCol(starts: seq<nat>, offset: nat) returns (line: nat, col: nat)
    requires Rising(starts)
    ensures line == LineAt(starts, offset) && col == offset - starts[line]
  {
    line := 0;
    var index := 0;
    while index < |starts|
      invariant index <= |starts| && line < |starts| && starts[line] <= offset
      invariant line == if index == 0 then 0 else index - 1
    {
      if starts[index] <= offset {
        line := index;
      } else {
        break;
      }
      index := index + 1;
    }
    LineUnique(starts, offset, line, LineAt(starts, offset));
    col := offset - starts[line];
  }

  /** The line feed that ends a line, or the end of the text. */
  function LineEndOffset(text: string, starts: seq<nat>, line: nat): int {
    if line + 1 < |starts| then starts[line + 1] - 1 else |text|
  }

  // ----- splitting tokens -----

  /** A token of one line; the start is a column in bytes. */
  datatype Raw = Raw(line: nat, start: nat, length: nat, ty: nat)

  /** A token of the lexer, with the type under which it is shown, if any. */
  datatype Lexed = Lexed(ty: Option<nat>, offset: nat, len: nat)

  predicate CoversByte(starts: seq<nat>, r: Raw, b: nat) {
    r.line < |starts| && starts[r.line] + r.start <= b < starts[r.line] + r.start + r.length
  }

  /** The part of a token that lies on one line. */
  function OnLine(text: string, starts: seq<nat>, start: nat, end: nat, line: nat, ty: nat): seq<Raw>
    requires AreStarts(text, starts) && start < end <= |text|
    requires LineAt(starts, start) <= line <= LineAt(starts, end - 1)
  {
    var from := if line == LineAt(starts, start) then start else starts[line];
    var to := if line == LineAt(starts, end - 1) then end else LineEndOffset(text, starts, line);
    if from < to then [Raw(line, from - starts[line], to - from, ty)] else []
  }

  function Split(text: string, starts: seq<nat>, start: nat, end: nat, line: nat, ty: nat): seq<Raw>
    requires AreStarts(text, starts) && start < end <= |text| && LineAt(starts, start) <= line
    decreases LineAt(starts, end - 1) + 1 - line
  {
    if line > LineAt(starts, end - 1) then []
    else OnLine(text, starts, start, end, line, ty) + Split(text, starts, start, end, line + 1, ty)
  }

  /** A byte of the token that is shown: all of them but the line feeds before the last byte. */
  predicate Shown(text: string, start: nat, end: nat, b: nat) {
    start <= b < end <= |text| && (text[b] == '\n' ==> b == end - 1)
  }

  /** The byte of a line feed is the last of its line. */
  lemma FeedEndsLine(text: string, starts: seq<nat>, b: nat)
    requires AreStarts(text, starts) && b < |text|
    ensures var l := LineAt(starts, b); text[b] == '\n' <==> l + 1 < |starts| && starts[l + 1] == b + 1
  {
    hide LineAt;
    if text[b] == '\n' {
      var i :| 0 < i < |starts| && starts[i] == b + 1;
      assert starts[i - 1] < starts[i];
      LineUnique(starts, b, i - 1, LineAt(starts, b));
    }
  }

  lemma LineOrder(starts: seq<nat>, a: nat, b: nat)
    requires Rising(starts) && a <= b
    ensures LineAt(starts, a) <= LineAt(starts, b)
  {
    hide LineAt, Rising;
    var l, m := LineAt(starts, a), LineAt(starts, b);
    if m < l {
      Climb(starts, m + 1, l);
    }
  }

  /** On its line, a token covers exactly its bytes there that are shown. */
  lemma OnLineCovers(text: string, starts: seq<nat>, start: nat, end: nat, line: nat, ty: nat, b: nat)
    requires AreStarts(text, starts) && start < end <= |text|
    requires LineAt(starts, start) <= line <= LineAt(starts, end - 1)
    ensures var s := OnLine(text, starts, start, end, line, ty);
            && (s != [] ==> s[0].line == line && s[0].length > 0)
            && ((s != [] && CoversByte(starts, s[0], b)) <==> Shown(text, start, end, b) && LineAt(starts, b) == line)
  {
    hide Rising, AfterFeeds, AllFeeds, LineAt;
    var last := LineAt(starts, end - 1);
    if b < |text| {
      FeedEndsLine(text, starts, b);
      if start <= b < end {
        LineOrder(starts, start, b);
        LineOrder(starts, b, end - 1);
      }
    }
    if line < last {
      Climb(starts, line + 1, last);
    }
    if LineAt(starts, start) < line {
      Climb(starts, LineAt(starts, start) + 1, line);
    }
    var s := OnLine(text, starts, start, end, line, ty);
    if s != [] && CoversByte(starts, s[0], b) {
      LineUnique(starts, b, line, LineAt(starts, b));
    }
  }

  /** What a list of segments from `line` on must satisfy to show the token exactly. */
  predicate Exact(text: string, starts: seq<nat>, start: nat, end: nat, line: nat, s: seq<Raw>, b: nat)
    requires Rising(starts)
  {
    && (forall i :: 0 <= i < |s| ==> line <= s[i].line < |starts| && s[i].length > 0)
    && (forall i, j :: 0 <= i < j < |s| ==> s[i].line < s[j].line)
    && (forall i :: 0 <= i < |s| && CoversByte(starts, s[i], b) ==>
       s[i].line == LineAt(starts, b) && Shown(text, start, end, b))
    && (Shown(text, start, end, b) && LineAt(starts, b) >= line ==>
       exists i :: 0 <= i < |s| && CoversByte(starts, s[i], b))
  }

  lemma {:induction false} SplitCovers(text: string, starts: seq<nat>, start: nat, end: nat, line: nat, ty: nat, b: nat)
    requires AreStarts(text, starts) && start < end <= |text| && LineAt(starts, start) <= line
    ensures Exact(text, starts, start, end, line, Split(text, starts, start, end, line, ty), b)
    decreases LineAt(starts, end - 1) + 1 - line
  {
    hide Rising, AfterFeeds, AllFeeds, LineAt, OnLine, CoversByte, Shown, Exact;
    if line <= LineAt(starts, end - 1) {
      OnLineCovers(text, starts, start, end, line, ty, b);
      SplitCovers(text, starts, start, end, line + 1, ty, b);
      OneAtMost(text, starts, start, end, line, ty);
      JoinExact(text, starts, start, end, line, OnLine(text, starts, start, end, line, ty),
        Split(text, starts, start, end, line + 1, ty), b);
    } else {
      NothingLeft(text, starts, start, end, line, b);
      NoSegments(text, starts, start, end, line, b);
    }
  }

  lemma NoSegments(text: string, starts: seq<nat>, start: nat, end: nat, line: nat, b: nat)
    requires Rising(starts) && !(Shown(text, start, end, b) && LineAt(starts, b) >= line)
    ensures Exact(text, starts, start, end, line, [], b)
  {
  }

  lemma JoinExact(text: string, starts: seq<nat>, start: nat, end: nat, line: nat, s: seq<Raw>, rest: seq<Raw>, b: nat)
    requires Rising(starts) && |s| <= 1 && Exact(text, starts, start, end, line + 1, rest, b)
    requires s != [] ==> s[0].line == line < |starts| && s[0].length > 0
    requires (s != [] && CoversByte(starts, s[0], b)) <==> Shown(text, start, end, b) && LineAt(starts, b) == line
    ensures Exact(text, starts, start, end, line, s + rest, b)
  {
    hide Rising, LineAt, CoversByte, Shown;
    var all := s + rest;
    if Shown(text, start, end, b) && LineAt(starts, b) >= line {
      if LineAt(starts, b) == line {
        assert all[0] == s[0];
      } else {
        var i :| 0 <= i < |rest| && CoversByte(starts, rest[i], b);
        assert all[|s| + i] == rest[i];
      }
    }
  }

  lemma OneAtMost(text: string, starts: seq<nat>, start: nat, end: nat, line: nat, ty: nat)
    requires AreStarts(text, starts) && start < end <= |text|
    requires LineAt(starts, start) <= line <= LineAt(starts, end - 1)
    ensures |OnLine(text, starts, start, end, line, ty)| <= 1
  {
    hide Rising, AfterFeeds, AllFeeds, LineAt;
  }

  lemma NothingLeft(text: string, starts: seq<nat>, start: nat, end: nat, line: nat, b: nat)
    requires AreStarts(text, starts) && start < end <= |text| && line > LineAt(starts, end - 1)
    ensures !(Shown(text, start, end, b) && LineAt(starts, b) >= line)
  {
    hide Rising, AfterFeeds, AllFeeds, LineAt;
    if b < end {
      LineOrder(starts, b, end - 1);
    }
  }

  predicate CoversOnce(starts: seq<nat>, s: seq<Raw>, b: nat) {
    && (exists i :: 0 <= i < |s| && CoversByte(starts, s[i], b))
    && (forall i, j ::
          0 <= i < |s| && 0 <= j < |s| && CoversByte(starts, s[i], b) && CoversByte(starts, s[j], b) ==> i == j)
  }

  predicate LinesRise(s: seq<Raw>) {
    forall i, j :: 0 <= i < j < |s| ==> s[i].line < s[j].line
  }

  predicate CoversNot(starts: seq<nat>, s: seq<Raw>, b: nat) {
    forall i :: 0 <= i < |s| ==> !CoversByte(starts, s[i], b)
  }

  /** The segments of a token cover each of its bytes exactly once, except its line feeds before the last byte,
      and nothing else. */
  lemma SplitExact(text: string, start: nat, end: nat, ty: nat, b: nat)
    requires start < end <= |text|
    requires AreStarts(text, Starts(text))
    ensures var starts := Starts(text);
            var s := Split(text, starts, start, end, LineAt(starts, start), ty);
            LinesRise(s) && if Shown(text, start, end, b) then CoversOnce(starts, s, b) else CoversNot(starts, s, b)
  {
    hide Rising, AfterFeeds, AllFeeds, LineAt, CoversByte, Split;
    var starts := Starts(text);
    SplitCovers(text, starts, start, end, LineAt(starts, start), ty, b);
    if Shown(text, start, end, b) {
      LineOrder(starts, start, b);
    }
  }

  function Least(a: nat, b: nat): nat {
    if a < b then a else b
  }

  /** The segments of all tokens of the lexer. */
  function Segments(text: string, starts: seq<nat>, tokens: seq<Lexed>): seq<Raw>
    requires AreStarts(text, starts)
  {
    if tokens == [] then []
    else Segments(text, starts, tokens[..|tokens| - 1]) + TokenSegments(text, starts, tokens[|tokens| - 1])
  }

  function TokenSegments(text: string, starts: seq<nat>, t: Lexed): seq<Raw>
    requires AreStarts(text, starts)
  {
    var start := Least(t.offset, |text|);
    var end := Least(start + t.len, |text|);
    if t.ty.None? || start >= end then [] else Split(text, starts, start, end, LineAt(starts, start), t.ty.value)
  }

  /** A byte of the text is shown as being of a type by a token of the lexer: all bytes of the token inside the text
      but the line feeds before the last one. */
  predicate ShownBy(text: string, t: Lexed, ty: nat, b: nat) {
    && t.ty == Some(ty) && t.offset <= b < t.offset + t.len && b < |text|
    && (text[b] == '\n' ==> b + 1 == |text| || b + 1 == t.offset + t.len)
  }

  lemma {:induction false} SplitType(text: string, starts: seq<nat>, start: nat, end: nat, line: nat, ty: nat)
    requires AreStarts(text, starts) && start < end <= |text| && LineAt(starts, start) <= line
    ensures forall x :: x in Split(text, starts, start, end, line, ty) ==> x.ty == ty
    decreases LineAt(starts, end - 1) + 1 - line
  {
    hide Rising, AfterFeeds, AllFeeds, LineAt, LineEndOffset;
    if line <= LineAt(starts, end - 1) {
      SplitType(text, starts, start, end, line + 1, ty);
    }
  }

  lemma ShownAlike(text: string, t: Lexed, start: nat, end: nat, b: nat)
    requires t.ty.Some? && start == Least(t.offset, |text|) && end == Least(start + t.len, |text|)
    ensures ShownBy(text, t, t.ty.value, b) <==> start < end && Shown(text, start, end, b)
  {
  }

  /** A token is collected as segments of its own type, one line after the other, that cover each byte it shows
      exactly once, and no other byte. */
  lemma TokenExact(text: string, t: Lexed, b: nat)
    requires AreStarts(text, Starts(text))
    ensures forall x :: x in TokenSegments(text, Starts(text), t) ==> t.ty == Some(x.ty)
    ensures LinesRise(TokenSegments(text, Starts(text), t))
    ensures if t.ty.Some? && ShownBy(text, t, t.ty.value, b)
            then CoversOnce(Starts(text), TokenSegments(text, Starts(text), t), b)
            else CoversNot(Starts(text), TokenSegments(text, Starts(text), t), b)
  {
    hide Rising, AfterFeeds, AllFeeds, LineAt, CoversByte, Split, Shown, ShownBy;
    var start := Least(t.offset, |text|);
    var end := Least(start + t.len, |text|);
    if t.ty.Some? {
      ShownAlike(text, t, start, end, b);
      if start < end {
        SplitType(text, Starts(text), start, end, LineAt(Starts(text), start), t.ty.value);
        SplitExact(text, start, end, t.ty.value, b);
        var s := Split(text, Starts(text), start, end, LineAt(Starts(text), start), t.ty.value);
        assert TokenSegments(text, Starts(text), t) == s;
      }
    }
  }

  predicate Covered(starts: seq<nat>, items: seq<Raw>, ty: nat, b: nat) {
    exists x :: x in items && x.ty == ty && CoversByte(starts, x, b)
  }

  lemma CoveredJoin(starts: seq<nat>, s: seq<Raw>, u: seq<Raw>, ty: nat, b: nat)
    ensures Covered(starts, s + u, ty, b) <==> Covered(starts, s, ty, b) || Covered(starts, u, ty, b)
  {
    hide CoversByte;
    assert forall x :: x in s + u <==> x in s || x in u;
  }

  lemma TokenCovered(text: string, t: Lexed, ty: nat, b: nat)
    requires AreStarts(text, Starts(text))
    ensures Covered(Starts(text), TokenSegments(text, Starts(text), t), ty, b) <==> ShownBy(text, t, ty, b)
  {
    TokenExact(text, t, b);
    hide AreStarts, CoversByte, TokenSegments;
    var starts := Starts(text);
    var s := TokenSegments(text, starts, t);
    if x :| x in s && x.ty == ty && CoversByte(starts, x, b) {
      var i :| 0 <= i < |s| && s[i] == x;
    }
    if ShownBy(text, t, ty, b) {
      var i :| 0 <= i < |s| && CoversByte(starts, s[i], b);
      assert s[i] in s;
    }
  }

  /** Collected is exactly what the tokens of the lexer show: a byte is covered by a segment of a type if and only if
      some token of that type shows it. */
  lemma {:induction false} CollectedExact(text: string, tokens: seq<Lexed>, ty: nat, b: nat)
    requires AreStarts(text, Starts(text))
    ensures Covered(Starts(text), Segments(text, Starts(text), tokens), ty, b) <==>
            exists t :: t in tokens && ShownBy(text, t, ty, b)
  {
    hide AreStarts, Covered, TokenSegments, ShownBy;
    if tokens != [] {
      var front, last := tokens[..|tokens| - 1], tokens[|tokens| - 1];
      assert tokens == front + [last];
      CollectedExact(text, front, ty, b);
      TokenCovered(text, last, ty, b);
      CoveredJoin(Starts(text), Segments(text, Starts(text), front), TokenSegments(text, Starts(text), last), ty, b);
    } else {
      NothingCovered(Starts(text), ty, b);
    }
  }

  /** Segments are collected token by token, in the order of the tokens. */
  lemma {:induction false} SegmentsJoin(text: string, starts: seq<nat>, a: seq<Lexed>, b: seq<Lexed>)
    requires AreStarts(text, starts)
    ensures Segments(text, starts, a + b) == Segments(text, starts, a) + Segments(text, starts, b)
    decreases |b|
  {
    hide *;
    if b == [] {
      assert a + b == a;
      NoTokens(text, starts);
    } else {
      var front, t := b[..|b| - 1], b[|b| - 1];
      SegmentsJoin(text, starts, a, front);
      OneToken(text, starts, a + front, t);
      OneToken(text, starts, front, t);
      assert a + front + [t] == a + b && front + [t] == b;
    }
  }

  lemma NoTokens(text: string, starts: seq<nat>)
    requires AreStarts(text, starts)
    ensures Segments(text, starts, []) == []
  {
  }

  lemma OneToken(text: string, starts: seq<nat>, front: seq<Lexed>, t: Lexed)
    requires AreStarts(text, starts)
    ensures Segments(text, starts, front + [t]) == Segments(text, starts, front) + TokenSegments(text, starts, t)
  {
    hide AreStarts, TokenSegments;
    assert (front + [t])[..|front|] == front;
  }

  lemma NothingCovered(starts: seq<nat>, ty: nat, b: nat)
    ensures !Covered(starts, [], ty, b)
  {
  }

  method Collect(text: string, starts: seq<nat>, tokens: seq<Lexed>) returns (items: seq<Raw>)
    requires AreStarts(text, starts)
    ensures items == Segments(text, starts, tokens)
  {
    hide Rising, AfterFeeds, AllFeeds, LineAt, Split;
    items := [];
    for n := 0 to |tokens|
      invariant items == Segments(text, starts, tokens[..n])
    {
      assert tokens[..n + 1][..n] == tokens[..n];
      var start := Least(tokens[n].offset, |text|);
      var end := Least(start + tokens[n].len, |text|);
      if tokens[n].ty.Some? && start < end {
        var segments := SplitLines(text, starts, start, end, tokens[n].ty.value);
        items := items + segments;
      }
    }
    assert tokens[..|tokens|] == tokens;
  }

  method SplitLines(text: string, starts: seq<nat>, start: nat, end: nat, ty: nat) returns (items: seq<Raw>)
    requires AreStarts(text, starts) && start < end <= |text|
    ensures items == Split(text, starts, start, end, LineAt(starts, start), ty)
  {
    hide Rising, AfterFeeds, AllFeeds, LineAt, Split, OnLine;
    var startLine, _ := OffsetToLineCol(starts, start);
    var endLine, _ := OffsetToLineCol(starts, end - 1);
    items := [];
    var line := startLine;
    while line <= endLine
      invariant startLine <= line
      invariant items + Split(text, starts, start, end, line, ty) == Split(text, starts, start, end, startLine, ty)
    {
      SplitStep(text, starts, start, end, line, ty, items);
      var from := if line == startLine then start else starts[line];
      var to := if line == endLine then end else LineEndOffset(text, starts, line);
      if from < to {
        items := items + [Raw(line, from - starts[line], to - from, ty)];
      }
      line := line + 1;
    }
    SplitEnd(text, starts, start, end, line, ty);
  }

  lemma SplitStep(text: string, starts: seq<nat>, start: nat, end: nat, line: nat, ty: nat, items: seq<Raw>)
    requires AreStarts(text, starts) && start < end <= |text|
    requires LineAt(starts, start) <= line <= LineAt(starts, end - 1)
    ensures var from := if line == LineAt(starts, start) then start else starts[line];
            var to := if line == LineAt(starts, end - 1) then end else LineEndOffset(text, starts, line);
            items + Split(text, starts, start, end, line, ty) ==
            (if from < to then items + [Raw(line, from - starts[line], to - from, ty)] else items) +
              Split(text, starts, start, end, line + 1, ty)
  {
    hide Rising, AfterFeeds, AllFeeds, LineAt, OnLine, LineEndOffset;
    OnLineIs(text, starts, start, end, line, ty);
    assert items + (OnLine(text, starts, start, end, line, ty) + Split(text, starts, start, end, line + 1, ty)) ==
           items + OnLine(text, starts, start, end, line, ty) + Split(text, starts, start, end, line + 1, ty);
  }

  lemma OnLineIs(text: string, starts: seq<nat>, start: nat, end: nat, line: nat, ty: nat)
    requires AreStarts(text, starts) && start < end <= |text|
    requires LineAt(starts, start) <= line <= LineAt(starts, end - 1)
    ensures var from := if line == LineAt(starts, start) then start else starts[line];
            var to := if line == LineAt(starts, end - 1) then end else LineEndOffset(text, starts, line);
            OnLine(text, starts, start, end, line, ty) == if from < to then
              [Raw(line, from - starts[line], to - from, ty)] else []
  {
    hide Rising, AfterFeeds, AllFeeds, LineAt, LineEndOffset;
  }

  lemma SplitEnd(text: string, starts: seq<nat>, start: nat, end: nat, line: nat, ty: nat)
    requires AreStarts(text, starts) && start < end <= |text| && LineAt(starts, start) <= line
    requires line > LineAt(starts, end - 1)
    ensures Split(text, starts, start, end, line, ty) == []
  {
  }

  // ----- the overlay -----

  predicate Overlap(a: Raw, b: Raw) {
    a.line == b.line && a.start < b.start + b.length && b.start < a.start + a.length
  }

  /** Tokens overlap when some column of their line belongs to both. */
  lemma OverlapMeans(a: Raw, b: Raw)
    requires a.length > 0 && b.length > 0
    ensures Overlap(a, b) <==> exists at: nat :: InColumn(a, a.line, at) && InColumn(b, a.line, at)
  {
    if Overlap(a, b) {
      var at := if a.start < b.start then b.start else a.start;
      assert InColumn(a, a.line, at) && InColumn(b, a.line, at);
    }
  }

  predicate InColumn(r: Raw, line: nat, at: nat) {
    r.line == line && r.start <= at < r.start + r.length
  }

  predicate Clear(overlay: seq<Raw>, item: Raw) {
    forall c :: c in overlay ==> !Overlap(item, c)
  }

  /** The items that no overlay token overlaps, in their order. */
  function Retained(items: seq<Raw>, overlay: seq<Raw>): (r: seq<Raw>)
    ensures forall x :: x in r <==> x in items && Clear(overlay, x)
  {
    if items == [] then []
    else
      var rest := Retained(items[1..], overlay);
      if Clear(overlay, items[0]) then [items[0]] + rest else rest
  }

  /** Of a list, the same are retained wherever it stands, in its order. */
  lemma {:induction false} RetainedJoins(a: seq<Raw>, b: seq<Raw>, overlay: seq<Raw>)
    ensures Retained(a + b, overlay) == Retained(a, overlay) + Retained(b, overlay)
  {
    hide *;
    if a == [] {
      assert a + b == b;
      RetainedNone(overlay);
    } else {
      RetainedJoins(a[1..], b, overlay);
      RetainedStep(a, overlay);
      RetainedStep(a + b, overlay);
      assert (a + b)[1..] == a[1..] + b;
    }
  }

  lemma RetainedNone(overlay: seq<Raw>)
    ensures Retained([], overlay) == []
  {
  }

  lemma RetainedStep(s: seq<Raw>, overlay: seq<Raw>)
    requires s != []
    ensures Retained(s, overlay) == (if Clear(overlay, s[0]) then [s[0]] else []) + Retained(s[1..], overlay)
  {
    hide Clear;
  }

  predicate Before(a: Raw, b: Raw) {
    a.line < b.line || (a.line == b.line && a.start <= b.start)
  }

  predicate Sorted(s: seq<Raw>) {
    forall i, j :: 0 <= i < j < |s| ==> Before(s[i], s[j])
  }

  /** A stable sort: an item goes in front of the items that do not come before it. */
  function Insert(x: Raw, s: seq<Raw>): (r: seq<Raw>)
    requires Sorted(s)
    ensures Sorted(r) && multiset(r) == multiset(s) + multiset{x}
    ensures forall y :: y in r <==> y in s || y == x
  {
    if s == [] || Before(x, s[0]) then
      InFront(x, s);
      [x] + s
    else
      var t := Insert(x, s[1..]);
      assert forall y :: y in s[1..] ==> Before(s[0], y);
      InFront(s[0], t);
      assert s == [s[0]] + s[1..];
      [s[0]] + t
  }

  lemma InFront(x: Raw, s: seq<Raw>)
    requires Sorted(s) && ((s != [] && Before(x, s[0])) || forall y :: y in s ==> Before(x, y))
    ensures Sorted([x] + s)
  {
    var r := [x] + s;
    assert forall j :: 0 < j < |r| ==> r[j] == s[j - 1] && s[j - 1] in s;
  }

  function Sort(s: seq<Raw>): (r: seq<Raw>)
    ensures Sorted(r) && multiset(r) == multiset(s)
  {
    if s == [] then []
    else
      assert s == [s[0]] + s[1..];
      Insert(s[0], Sort(s[1..]))
  }

  /** Items with one position. */
  function AtKey(s: seq<Raw>, line: nat, start: nat): seq<Raw> {
    if s == [] then []
    else (if s[0].line == line && s[0].start == start then [s[0]] else []) + AtKey(s[1..], line, start)
  }

  lemma {:induction false} InsertStable(x: Raw, s: seq<Raw>, line: nat, start: nat)
    requires Sorted(s)
    ensures AtKey(Insert(x, s), line, start) ==
              (if x.line == line && x.start == start then [x] else []) + AtKey(s, line, start)
  {
    if s == [] || Before(x, s[0]) {
      assert Insert(x, s) == [x] + s;
      KeyHead(x, s, line, start);
    } else {
      var t := Insert(x, s[1..]);
      assert Insert(x, s) == [s[0]] + t;
      InsertStable(x, s[1..], line, start);
      KeyHead(s[0], t, line, start);
      KeyHead(s[0], s[1..], line, start);
      assert s == [s[0]] + s[1..];
    }
  }

  lemma KeyHead(x: Raw, s: seq<Raw>, line: nat, start: nat)
    ensures AtKey([x] + s, line, start) ==
              (if x.line == line && x.start == start then [x] else []) + AtKey(s, line, start)
  {
    assert ([x] + s)[1..] == s;
  }

  /** Sorting keeps items of one position in their order, so that overlay tokens stay behind lexer tokens. */
  lemma {:induction false} SortStable(s: seq<Raw>, line: nat, start: nat)
    ensures AtKey(Sort(s), line, start) == AtKey(s, line, start)
  {
    if s != [] {
      SortStable(s[1..], line, start);
      InsertStable(s[0], Sort(s[1..]), line, start);
    }
  }

  /** A use of a name that the analysis recorded. */
  datatype Occurrence = Occurrence(offset: nat, len: nat, ty: nat)

  /** Occurrences that are not empty and lie on one line. */
  function Overlay(text: string, starts: seq<nat>, occurrences: seq<Occurrence>): (r: seq<Raw>)
    requires AreStarts(text, starts)
  {
    if occurrences == [] then []
    else
      var before := Overlay(text, starts, occurrences[..|occurrences| - 1]);
      var o := occurrences[|occurrences| - 1];
      var start := Least(o.offset, |text|);
      var end := Least(start + o.len, |text|);
      if start >= end || LineAt(starts, start) != LineAt(starts, end - 1) then before
      else before + [Raw(LineAt(starts, start), start - starts[LineAt(starts, start)], end - start, o.ty)]
  }

  /** The token shows the occurrence: the same bytes, all on one line, and its type. */
  predicate ShowsUse(text: string, starts: seq<nat>, r: Raw, o: Occurrence, b: nat)
    requires AreStarts(text, starts)
  {
    var start := Least(o.offset, |text|);
    var end := Least(start + o.len, |text|);
    && r.ty == o.ty && start < end && r.line == LineAt(starts, start) == LineAt(starts, end - 1)
    && (CoversByte(starts, r, b) <==> start <= b < end)
  }

  predicate OneLine(text: string, starts: seq<nat>, o: Occurrence)
    requires AreStarts(text, starts)
  {
    var start := Least(o.offset, |text|);
    var end := Least(start + o.len, |text|);
    start < end && LineAt(starts, start) == LineAt(starts, end - 1)
  }

  predicate ShowsSome(text: string, starts: seq<nat>, r: Raw, occurrences: seq<Occurrence>, b: nat)
    requires AreStarts(text, starts)
  {
    exists o :: o in occurrences && ShowsUse(text, starts, r, o, b)
  }

  /** The overlay shows exactly the occurrences that are not empty and lie on one line, byte for byte. */
  lemma {:induction false} OverlayExact(text: string, starts: seq<nat>, occurrences: seq<Occurrence>, b: nat)
    requires AreStarts(text, starts)
    ensures var overlay := Overlay(text, starts, occurrences);
            && (forall o :: o in occurrences && OneLine(text, starts, o) ==>
               exists r :: r in overlay && ShowsUse(text, starts, r, o, b))
            && (forall r :: r in overlay ==> ShowsSome(text, starts, r, occurrences, b))
    decreases |occurrences|
  {
    hide Rising, AfterFeeds, AllFeeds, LineAt;
    if occurrences != [] {
      var front, o := occurrences[..|occurrences| - 1], occurrences[|occurrences| - 1];
      OverlayExact(text, starts, front, b);
      assert occurrences == front + [o];
      var before, overlay := Overlay(text, starts, front), Overlay(text, starts, occurrences);
      if OneLine(text, starts, o) {
        var r := overlay[|before|];
        assert overlay == before + [r] && ShowsUse(text, starts, r, o, b);
      }
      hide ShowsUse, OneLine;
      forall r | r in overlay ensures ShowsSome(text, starts, r, occurrences, b) {
        if r in before {
          assert ShowsSome(text, starts, r, front, b);
        }
      }
    }
  }

  /** The overlay is made occurrence by occurrence, in their order, of one token at most for each. */
  lemma {:induction false} OverlayJoins(text: string, starts: seq<nat>, a: seq<Occurrence>, b: seq<Occurrence>)
    requires AreStarts(text, starts)
    ensures Overlay(text, starts, a + b) == Overlay(text, starts, a) + Overlay(text, starts, b)
    ensures forall o :: |Overlay(text, starts, [o])| == if OneLine(text, starts, o) then 1 else 0
    decreases |b|
  {
    hide Rising, AfterFeeds, AllFeeds, LineAt;
    if b == [] {
      assert a + b == a;
    } else {
      OverlayJoins(text, starts, a, b[..|b| - 1]);
      assert (a + b)[..|a + b| - 1] == a + b[..|b| - 1];
    }
  }

  method CollectWith(text: string, tokens: seq<Lexed>, occurrences: seq<Occurrence>) returns (items: seq<Raw>)
    ensures AreStarts(text, Starts(text)) && Sorted(items)
    ensures var overlay := Overlay(text, Starts(text), occurrences);
            var kept := Retained(Segments(text, Starts(text), tokens), overlay);
            && multiset(items) == multiset(kept) + multiset(overlay)
            && (forall x, c :: x in kept && c in overlay ==> !Overlap(x, c))
            && (forall line, start :: AtKey(items, line, start) == AtKey(kept + overlay, line, start))
  {
    var starts := LineStarts(text);
    hide Rising, AfterFeeds, AllFeeds, Starts, LineAt, Overlap, Overlay, Segments, Sorted;
    var overlay := BuildOverlay(text, starts, occurrences);
    var all := Collect(text, starts, tokens);
    var kept := Retained(all, overlay);
    items := Sort(kept + overlay);
    forall line: nat, start: nat ensures AtKey(items, line, start) == AtKey(kept + overlay, line, start) {
      SortStable(kept + overlay, line, start);
    }
  }

  method BuildOverlay(text: string, starts: seq<nat>, occurrences: seq<Occurrence>) returns (overlay: seq<Raw>)
    requires AreStarts(text, starts)
    ensures overlay == Overlay(text, starts, occurrences)
  {
    hide Rising, AfterFeeds, AllFeeds, LineAt;
    overlay := [];
    for n := 0 to |occurrences|
      invariant overlay == Overlay(text, starts, occurrences[..n])
    {
      assert occurrences[..n + 1][..n] == occurrences[..n];
      var start := Least(occurrences[n].offset, |text|);
      var end := Least(start + occurrences[n].len, |text|);
      if start >= end {
        continue;
      }
      var startLine, startCol := OffsetToLineCol(starts, start);
      var endLine, _ := OffsetToLineCol(starts, end - 1);
      if startLine != endLine {
        continue;
      }
      overlay := overlay + [Raw(startLine, startCol, end - start, occurrences[n].ty)];
    }
    assert occurrences[..|occurrences|] == occurrences;
  }

  /** Two tokens of the lexer that do not overlap have no segments that do. */
  lemma SegmentsApart(text: string, t: Lexed, u: Lexed, r: Raw, q: Raw)
    requires AreStarts(text, Starts(text)) && t.offset + t.len <= u.offset
    requires r in TokenSegments(text, Starts(text), t) && q in TokenSegments(text, Starts(text), u)
    ensures !Overlap(r, q)
  {
    var starts := Starts(text);
    hide Rising, AfterFeeds, AllFeeds, Starts, Split, LineAt, Overlap, CoversByte;
    var s, e := Least(t.offset, |text|), Least(t.offset + t.len, |text|);
    var s', e' := Least(u.offset, |text|), Least(u.offset + u.len, |text|);
    assert e <= s';
    SplitCovers(text, starts, s, e, LineAt(starts, s), t.ty.value, 0);
    SplitCovers(text, starts, s', e', LineAt(starts, s'), u.ty.value, 0);
    var b := starts[r.line] + if r.start < q.start then q.start else r.start;
    SplitCovers(text, starts, s, e, LineAt(starts, s), t.ty.value, b);
    SplitCovers(text, starts, s', e', LineAt(starts, s'), u.ty.value, b);
    NotBothShown(text, s, e, s', e', b);
    if CoversByte(starts, r, b) && CoversByte(starts, q, b) {
    } else {
      NotBothCover(starts, r, q, b);
    }
  }

  lemma NotBothShown(text: string, s: nat, e: nat, s': nat, e': nat, b: nat)
    requires e <= s'
    ensures !(Shown(text, s, e, b) && Shown(text, s', e', b))
  {
  }

  lemma NotBothCover(starts: seq<nat>, r: Raw, q: Raw, b: nat)
    requires r.line < |starts| && r.length > 0 && q.length > 0
    requires b == starts[r.line] + if r.start < q.start then q.start else r.start
    requires !(CoversByte(starts, r, b) && CoversByte(starts, q, b))
    ensures !Overlap(r, q)
  {
  }

  // ----- the wire form -----

  datatype Delta = Delta(line: nat, start: nat, length: nat, ty: nat)

  /** A sorted list that nothing puts before the given position. */
  predicate Follows(items: seq<Raw>, line: nat, start: nat) {
    Sorted(items) && (items != [] ==> Before(Raw(line, start, 0, 0), items[0]))
  }

  function Encoded(items: seq<Raw>, line: nat, start: nat): (r: seq<Delta>)
    requires Follows(items, line, start)
  {
    if items == [] then []
    else
      var x := items[0];
      [Delta(x.line - line, if x.line != line then x.start else x.start - start, x.length, x.ty)] +
        Encoded(items[1..], x.line, x.start)
  }

  /** The reading that the protocol prescribes. */
  function Decoded(deltas: seq<Delta>, line: nat, start: nat): seq<Raw> {
    if deltas == [] then []
    else
      var d := deltas[0];
      var l, s := line + d.line, if d.line == 0 then start + d.start else d.start;
      [Raw(l, s, d.length, d.ty)] + Decoded(deltas[1..], l, s)
  }

  /** The differences are never negative on a sorted list. */
  method Encode(items: seq<Raw>) returns (out: seq<Delta>)
    requires Sorted(items)
    ensures out == Encoded(items, 0, 0)
  {
    assert Follows(items, 0, 0) && items[0..] == items;
    hide Encoded, Sorted, Before, Follows;
    out := [];
    var prevLine, prevStart := 0, 0;
    for position := 0 to |items|
      invariant prevLine == if position == 0 then 0 else items[position - 1].line
      invariant prevStart == if position == 0 then 0 else items[position - 1].start
      invariant Follows(items[position..], prevLine, prevStart)
      invariant out + Encoded(items[position..], prevLine, prevStart) == Encoded(items, 0, 0)
    {
      var item := items[position];
      EncodedStep(items, position, prevLine, prevStart, out);
      var deltaLine := item.line - prevLine;
      var deltaStart := if position == 0 || deltaLine != 0 then item.start else item.start - prevStart;
      out := out + [Delta(deltaLine, deltaStart, item.length, item.ty)];
      prevLine := item.line;
      prevStart := item.start;
    }
    EncodedEnd(items, prevLine, prevStart, out);
  }

  lemma EncodedEnd(items: seq<Raw>, line: nat, start: nat, out: seq<Delta>)
    requires Follows(items[|items|..], line, start)
    ensures out + Encoded(items[|items|..], line, start) == out
  {
  }

  lemma EncodedStep(items: seq<Raw>, k: nat, line: nat, start: nat, out: seq<Delta>)
    requires k < |items| && Follows(items[k..], line, start)
    ensures var x := items[k];
            && line <= x.line && (line == x.line ==> start <= x.start)
            && Follows(items[k + 1..], x.line, x.start)
            && out + Encoded(items[k..], line, start) ==
               out + [Delta(x.line - line, if x.line != line then x.start else x.start - start, x.length, x.ty)] +
                 Encoded(items[k + 1..], x.line, x.start)
  {
    var rest := items[k..];
    assert rest[0] == items[k] && rest[1..] == items[k + 1..];
    if k + 1 < |items| {
      assert Before(rest[0], rest[1]);
    }
    hide Sorted, Before;
  }

  lemma {:induction false} DecodeEncodedFrom(items: seq<Raw>, line: nat, start: nat)
    requires Follows(items, line, start)
    ensures Decoded(Encoded(items, line, start), line, start) == items
    decreases |items|
  {
    if items != [] {
      DecodeEncodedFrom(items[1..], items[0].line, items[0].start);
    }
  }

  /** The items of a range of lines. */
  function InRange(items: seq<Raw>, first: nat, last: nat): (r: seq<Raw>)
    ensures forall x :: x in r <==> x in items && first <= x.line <= last
  {
    if items == [] then []
    else (if first <= items[0].line <= last then [items[0]] else []) + InRange(items[1..], first, last)
  }

  lemma {:induction false} RangeSorted(items: seq<Raw>, first: nat, last: nat)
    requires Sorted(items)
    ensures Sorted(InRange(items, first, last))
  {
    if items != [] {
      RangeSorted(items[1..], first, last);
      var r, t := InRange(items, first, last), InRange(items[1..], first, last);
      assert forall x :: x in items[1..] ==> Before(items[0], x);
      if first <= items[0].line <= last {
        assert forall j :: 0 < j < |r| ==> r[j] == t[j - 1] && t[j - 1] in t;
      }
    }
  }

  /** The wire form loses nothing, of the whole list and of any range of its lines. */
  lemma Lossless(items: seq<Raw>, first: nat, last: nat)
    requires Sorted(items)
    ensures Decoded(Encoded(items, 0, 0), 0, 0) == items
    ensures Sorted(InRange(items, first, last))
    ensures Decoded(Encoded(InRange(items, first, last), 0, 0), 0, 0) == InRange(items, first, last)
  {
    DecodeEncodedFrom(items, 0, 0);
    RangeSorted(items, first, last);
    DecodeEncodedFrom(InRange(items, first, last), 0, 0);
  }

  lemma {:induction false} RangeCounts(items: seq<Raw>, first: nat, last: nat, x: Raw)
    ensures multiset(InRange(items, first, last))[x] == if first <= x.line <= last then multiset(items)[x] else 0
  {
    if items != [] {
      RangeCounts(items[1..], first, last, x);
      assert items == [items[0]] + items[1..];
    }
  }

  /** The answer for a range of lines decodes to a sorted list of exactly the tokens on these lines. */
  method TokensInRange(text: string, tokens: seq<Lexed>, occurrences: seq<Occurrence>, first: nat, last: nat)
    returns (out: seq<Delta>)
    ensures AreStarts(text, Starts(text)) && Sorted(Decoded(out, 0, 0))
    ensures var overlay := Overlay(text, Starts(text), occurrences);
            var kept := Retained(Segments(text, Starts(text), tokens), overlay);
            multiset(Decoded(out, 0, 0)) == multiset(InRange(kept + overlay, first, last))
  {
    hide Rising, AfterFeeds, AllFeeds, Starts, Overlay, Segments, Retained, Sorted, AtKey;
    var items := CollectWith(text, tokens, occurrences);
    ghost var overlay := Overlay(text, Starts(text), occurrences);
    ghost var all := Retained(Segments(text, Starts(text), tokens), overlay) + overlay;
    Lossless(items, first, last);
    forall x ensures multiset(InRange(items, first, last))[x] == multiset(InRange(all, first, last))[x] {
      RangeCounts(items, first, last, x);
      RangeCounts(all, first, last, x);
    }
    out := Encode(InRange(items, first, last));
  }

  // ----- columns -----

  /** A text of characters as the bytes of its encoding. */
  function Encoding(text: string): (bytes: string)
    ensures |bytes| == P.At(text, |text|)
  {
    P.BytesLength(text);
    P.BytesSmall(text);
    seq(P.At(text, |text|), i requires 0 <= i < P.At(text, |text|) => P.Bytes(text)[i] as char)
  }

  lemma EncodingFront(text: string)
    requires text != ""
    ensures var n := |text| - 1;
            && P.At(text[..n], n) == P.At(text, n) <= P.At(text, n + 1)
            && Encoding(text) == Encoding(text[..n]) + Encoding(text)[P.At(text, n)..]
            && |Encoding(text)| == P.At(text, n) + P.Len8(text[n])
            && forall i :: P.At(text, n) <= i < |Encoding(text)| ==>
               (Encoding(text)[i] == '\n' <==> i == P.At(text, n) && text[n] == '\n')
  {
    var n := |text| - 1;
    var front := text[..n];
    P.AtPrefix(text, n, n);
    P.BytesLength(text);
    P.BytesLength(front);
    P.BytesSmall(text);
    P.BytesSmall(front);
    assert P.Bytes(text) == P.Bytes(front) + P.Utf8(text[n]);
  }

  /** Appending bytes without a line feed starts no line; a line feed starts one after it. */
  lemma {:induction false} StartsAppend(a: string, b: string)
    requires forall i :: 0 < i < |b| ==> b[i] != '\n'
    ensures Starts(a + b) == Starts(a) + if b != "" && b[0] == '\n' then [|a| + 1] else []
    decreases |b|
  {
    var t := a + b;
    if b == "" {
      assert t == a;
    } else {
      var c := b[..|b| - 1];
      assert t[..|t| - 1] == a + c;
      StartsStep(t);
      if |b| > 1 {
        StartsAppend(a, c);
      } else {
        StartsAppend(a, "");
        assert c == "";
      }
    }
  }

  lemma EncodingStarts(text: string)
    requires text != ""
    ensures var n := |text| - 1;
            Starts(Encoding(text)) == Starts(Encoding(text[..n])) + if text[n] == '\n' then [P.At(text, n) + 1] else []
  {
    var n := |text| - 1;
    EncodingFront(text);
    var rest := Encoding(text)[P.At(text, n)..];
    StartsAppend(Encoding(text[..n]), rest);
    hide Encoding, Starts;
    assert rest != "" && (rest[0] == '\n' <==> text[n] == '\n');
  }

  /** The line starts of the encoding are the starts of the text's lines. */
  lemma {:induction false} StartsOfEncoding(text: string, k: nat)
    requires k <= |text|
    ensures |Starts(Encoding(text))| == P.LineOf(text, |text|) + 1
    ensures P.LineOf(text, k) < |Starts(Encoding(text))|
    ensures Starts(Encoding(text))[P.LineOf(text, k)] == P.At(text, P.LineStart(text, k))
    decreases |text|
  {
    if text == "" {
      assert Encoding(text) == "";
    } else {
      var n := |text| - 1;
      var l := if k <= n then k else n;
      StartsOfEncoding(text[..n], l);
      EncodingStarts(text);
      SameFront(text, n, l);
      SameFront(text, n, n);
      LastFeed(text);
      hide Encoding, Starts, P.LineStart, P.LineOf, P.At;
    }
  }

  lemma LastFeed(text: string)
    requires text != ""
    ensures var n := |text| - 1;
            && P.LineOf(text, n + 1) == P.LineOf(text, n) + (if text[n] == '\n' then 1 else 0)
            && P.LineStart(text, n + 1) == (if text[n] == '\n' then n + 1 else P.LineStart(text, n))
            && (text[n] == '\n' ==> P.At(text, n + 1) == P.At(text, n) + 1)
  {
    P.NextChar(text, |text| - 1);
  }

  lemma {:induction false} SameFront(text: string, n: nat, k: nat)
    requires k <= n <= |text|
    ensures P.LineOf(text[..n], k) == P.LineOf(text, k) && P.LineStart(text[..n], k) == P.LineStart(text, k)
    ensures P.At(text[..n], P.LineStart(text, k)) == P.At(text, P.LineStart(text, k))
    ensures P.LineOf(text, k) <= P.LineOf(text, n)
    decreases k
  {
    P.AtPrefix(text, n, P.LineStart(text, k));
    P.LinesGrow(text, k, n);
    if k > 0 {
      SameFront(text, n, k - 1);
    }
  }

  lemma LineStartBefore(text: string, k: nat)
    requires k <= |text|
    ensures P.LineStart(text, k) <= k && P.At(text, P.LineStart(text, k)) <= P.At(text, k)
  {
    P.AtGrows(text, P.LineStart(text, k), k);
  }

  lemma StandsOnLine(starts: seq<nat>, offset: nat, line: nat)
    requires line < |starts| && starts[line] <= offset && (line + 1 < |starts| ==> offset < starts[line + 1])
    ensures IsLineOf(starts, offset, line)
  {
  }

  /** The line and column found for a character boundary: lines end at line feeds, columns count bytes. */
  lemma LineColOfBoundary(text: string, k: nat)
    requires k <= |text|
    ensures var starts := Starts(Encoding(text));
            && Rising(starts) && LineAt(starts, P.At(text, k)) == P.LineOf(text, k)
            && starts[P.LineOf(text, k)] == P.At(text, P.LineStart(text, k)) <= P.At(text, k)
  {
    var bytes := Encoding(text);
    var starts := Starts(bytes);
    var line := P.LineOf(text, k);
    StartsAre(bytes);
    StartsOfEncoding(text, k);
    hide *;
    LineStartBefore(text, k);
    if line + 1 < |starts| {
      NextLine(text, k);
    }
    StandsOnLine(starts, P.At(text, k), line);
    LineUnique(starts, P.At(text, k), line, LineAt(starts, P.At(text, k)));
  }

  /** The next line starts after the boundary. */
  lemma NextLine(text: string, k: nat)
    requires k <= |text| && P.LineOf(text, k) < P.LineOf(text, |text|)
    ensures P.LineOf(text, k) + 1 < |Starts(Encoding(text))|
    ensures P.At(text, k) < Starts(Encoding(text))[P.LineOf(text, k) + 1]
  {
    var m := NextLineStart(text, k, |text|);
    StartsOfEncoding(text, m);
    hide Starts, Encoding;
    P.AtGrows(text, k, m);
  }

  lemma {:induction false} NextLineStart(text: string, k: nat, n: nat) returns (m: nat)
    requires k <= n <= |text| && P.LineOf(text, k) < P.LineOf(text, n)
    ensures k < m <= n && P.LineOf(text, m) == P.LineOf(text, k) + 1 && P.LineStart(text, m) == m
    decreases n
  {
    P.LinesGrow(text, k, n - 1);
    if P.LineOf(text, k) < P.LineOf(text, n - 1) {
      m := NextLineStart(text, k, n - 1);
    } else {
      m := n;
    }
  }

  lemma {:induction false} WidthsDiffer(text: string, s: nat, k: nat)
    requires s <= k <= |text|
    ensures P.Units(text, s, k) <= P.At(text, k) - P.At(text, s)
    ensures P.Units(text, s, k) == P.At(text, k) - P.At(text, s) <==> Ascii(text, s, k)
    decreases k
  {
    if s < k {
      WidthsDiffer(text, s, k - 1);
      P.UnitsAppend(text, s, k - 1);
    }
  }

  predicate Ascii(text: string, s: nat, k: nat)
    requires k <= |text|
  {
    forall i :: s <= i < k ==> text[i] as int < 0x80
  }

  /** When a line, a column and a length are what the protocol asks for, which also ends lines at lone carriage
      returns and counts UTF-16 units: the exact condition for the position, for each part of it, and for the
      length. */
  predicate AgreesExactly(text: string, k: nat, end: nat, line: nat, col: nat, length: nat)
    requires k <= end <= |text|
  {
    var s := P.LineStart(text, k);
    && (P.Position(line, col) == P.ProtocolPosition(text, k) <==> P.NoLoneReturn(text, 0, k) && Ascii(text, s, k))
    && (line == P.ProtocolPosition(text, k).line <==> P.NoLoneReturn(text, 0, k))
    && (col == P.ProtocolPosition(text, k).character <==> P.NoLoneReturn(text, s, k) && Ascii(text, s, k))
    && (length == P.Units(text, k, end) <==> Ascii(text, k, end))
  }

  lemma ByteColumns(text: string, k: nat, end: nat)
    requires k <= end <= |text|
    ensures P.At(text, P.LineStart(text, k)) <= P.At(text, k) <= P.At(text, end)
    ensures AgreesExactly(text, k, end, P.LineOf(text, k), P.At(text, k) - P.At(text, P.LineStart(text, k)),
              P.At(text, end) - P.At(text, k))
  {
    var s, t := P.LineStart(text, k), P.ProtocolStart(text, k);
    P.AtGrows(text, s, k);
    P.AtGrows(text, k, end);
    WidthsDiffer(text, s, k);
    WidthsDiffer(text, k, end);
    P.LinesDiffer(text, k);
    P.StartsDiffer(text, k);
    P.UnitsFrom(text, s, t, k);
    hide Ascii, P.LoneReturn, P.LineStart, P.ProtocolStart, P.ProtocolLine, P.LineOf, P.Units, P.At;
  }

  /** For a character boundary, the line found is the protocol's exactly when no lone carriage return lies before
      it, the byte column exactly when none lies before it on its line and the line is ASCII up to there, and the
      byte length of a token between two boundaries exactly when the token is ASCII. */
  method ColumnOf(text: string, k: nat, end: nat) returns (line: nat, col: nat, length: nat)
    requires k <= end <= |text|
    ensures AgreesExactly(text, k, end, line, col, length)
  {
    hide *;
    LineColOfBoundary(text, k);
    ByteColumns(text, k, end);
    var starts := LineStarts(Encoding(text));
    line, col := OffsetToLineCol(starts, P.At(text, k));
    length := P.At(text, end) - P.At(text, k);
  }

  /** The bytes between two boundaries. */
  function Span(text: string, k: nat, end: nat): nat
    requires k <= end <= |text|
  {
    P.AtGrows(text, k, end);
    P.At(text, end) - P.At(text, k)
  }

  /** So it is for the overlay token of an occurrence between two boundaries of one line. */
  lemma ColumnsAgreeIff(text: string, k: nat, end: nat, ty: nat)
    requires k < end <= |text|
    ensures AreStarts(Encoding(text), Starts(Encoding(text)))
    ensures var overlay := Overlay(Encoding(text), Starts(Encoding(text)),
              [Occurrence(P.At(text, k), Span(text, k, end), ty)]);
            overlay != [] ==>
              AgreesExactly(text, k, end, overlay[0].line, overlay[0].start, overlay[0].length)
  {
    hide *;
    StartsAre(Encoding(text));
    LineColOfBoundary(text, k);
    ByteColumns(text, k, end);
    InText(text, k, end);
    OneOccurrence(Encoding(text), Starts(Encoding(text)), Occurrence(P.At(text, k), Span(text, k, end), ty));
  }

  lemma InText(text: string, k: nat, end: nat)
    requires k <= end <= |text|
    ensures Least(P.At(text, k), |Encoding(text)|) == P.At(text, k)
    ensures Span(text, k, end) == P.At(text, end) - P.At(text, k)
    ensures Least(P.At(text, k) + Span(text, k, end), |Encoding(text)|) == P.At(text, end)
  {
    P.AtGrows(text, k, end);
    P.AtGrows(text, end, |text|);
    hide P.At;
  }

  lemma OneOccurrence(text: string, starts: seq<nat>, o: Occurrence)
    requires AreStarts(text, starts)
    ensures var start := Least(o.offset, |text|);
            var overlay := Overlay(text, starts, [o]);
            overlay != [] ==>
              overlay[0] == Raw(LineAt(starts, start), start - starts[LineAt(starts, start)],
                Least(start + o.len, |text|) - start, o.ty)
  {
    hide Rising, AfterFeeds, AllFeeds, LineAt;
    assert [o][..0] == [];
    assert Overlay(text, starts, [o][..0]) == [];
  }
}
